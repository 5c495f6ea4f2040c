/**
 Access in the words of the registry file: which entry gives a profile its role, which workspace it gets
 without asking, and exactly what an owner's change writes.
 */
module WorkspaceLaws {
  import opened Wrappers
  import opened Text
  import opened Identity
  import opened Workspaces
  import opened WorkspaceTheorems

  // ---------- Roles ----------

  function Word(role: Role): string {
    match role
    case Viewer => "viewer"
    case Editor => "editor"
    case Admin => "admin"
    case Owner => "owner"
  }

  /** The role may do what the other may. */
  predicate AtLeast(role: Role, minimum: Role) {
    match minimum
    case Viewer => true
    case Editor => role != Viewer
    case Admin => role == Admin || role == Owner
    case Owner => role == Owner
  }

  predicate Spells(u: Unicode, text: string, role: Role) {
    u.Lower(u.Trim(text)) == Word(role)
  }

  lemma RolesAreSpelled(u: Unicode, text: string, role: Role)
    ensures ParseRole(u, text) == Some(role) <==> Spells(u, text, role)
  {
    assert "viewer"[0] == 'v' && "editor"[0] == 'e' && "admin"[0] == 'a' && "owner"[0] == 'o';
  }

  lemma RanksOrderRoles(role: Role, minimum: Role)
    ensures Rank(role) >= Rank(minimum) <==> AtLeast(role, minimum)
  {
  }

  // ---------- Membership ----------

  /** The first entry of the workspace for the profile, which gives it this role. */
  ghost predicate Grants(u: Unicode, w: RawWorkspace, profileId: string, role: Role) {
    exists j :: 0 <= j < |w.members| && u.Trim(w.members[j].profileId) == profileId
                && Spells(u, w.members[j].role, role)
                && forall k :: 0 <= k < j ==> u.Trim(w.members[k].profileId) != profileId
  }

  /** The workspace is the first of those that have the profile as a member and, if an id is given, have that id. */
  ghost predicate Offered(u: Unicode, ws: seq<RawWorkspace>, profileId: string, id: Option<string>, i: nat) {
    && i < |ws| && (id.Some? ==> u.Trim(ws[i].id) == id.value)
    && (exists role :: Grants(u, ws[i], profileId, role))
    && forall k, role :: 0 <= k < i && (id.Some? ==> u.Trim(ws[k].id) == id.value) ==>
         !Grants(u, ws[k], profileId, role)
  }

  lemma {:induction false} MemberForIsFirst(ms: seq<Member>, profileId: string, role: Role)
    ensures MemberFor(ms, profileId) == Some(Member(profileId, role)) <==>
            exists j :: 0 <= j < |ms| && ms[j] == Member(profileId, role) && forall k :: 0 <= k < j ==>
                ms[k].profileId != profileId
    ensures MemberFor(ms, profileId).Some? ==> MemberFor(ms, profileId).value.profileId == profileId
  {
    if ms != [] && ms[0].profileId != profileId {
      MemberForIsFirst(ms[1..], profileId, role);
      if j :| 0 <= j < |ms| && ms[j] == Member(profileId, role)
              && forall k :: 0 <= k < j ==> ms[k].profileId != profileId {
        assert ms[1..][j - 1] == ms[j] && forall k :: 0 <= k < j - 1 ==> ms[1..][k] == ms[k + 1];
      }
      if j :| 0 <= j < |ms[1..]| && ms[1..][j] == Member(profileId, role)
              && forall k :: 0 <= k < j ==> ms[1..][k].profileId != profileId {
        assert ms[j + 1] == ms[1..][j] && forall k :: 0 < k < j + 1 ==> ms[k] == ms[1..][k - 1];
      }
    }
  }

  lemma MembersGrant(u: Unicode, w: RawWorkspace, profileId: string, role: Role)
    requires ValidWorkspace(u, w)
    ensures Grants(u, w, profileId, role) <==>
            MemberFor(NormalWorkspace(u, w).members, profileId) == Some(Member(profileId, role))
  {
    var ms := NormalWorkspace(u, w).members;
    MemberForIsFirst(ms, profileId, role);
    forall j | 0 <= j < |ms|
      ensures ms[j].profileId == u.Trim(w.members[j].profileId)
      ensures ms[j].role == role <==> Spells(u, w.members[j].role, role)
    {
      assert ValidMember(u, w.members[j]);
      RolesAreSpelled(u, w.members[j].role, role);
    }
    hide ParseRole;
    hide Spells;
    hide MemberFor;
    hide Unicode.Trim;
  }

  /** The first accessible workspace of the list, with the id if one is given. */
  function Choice(ws: seq<Workspace>, profileId: string, id: Option<string>): Option<Workspace> {
    var accessible := Accessible(ws, profileId);
    if id.Some? then WithId(accessible, id.value) else if accessible == [] then None else Some(accessible[0])
  }

  lemma {:induction false} AccessibleAppended(ws: seq<Workspace>, profileId: string)
    requires ws != []
    ensures Accessible(ws, profileId)
         == (if MemberFor(ws[0].members, profileId).Some? then [ws[0]] else []) + Accessible(ws[1..], profileId)
  {
    if |ws| > 1 {
      var init := ws[..|ws| - 1];
      AccessibleAppended(init, profileId);
      assert init[1..] == ws[1..][..|ws[1..]| - 1] && ws[1..][|ws[1..]| - 1] == ws[|ws| - 1];
    } else {
      assert ws[..0] == [] && ws[1..] == [];
    }
  }

  /** The choice is the first member workspace with the id. */
  lemma {:induction false} ChoiceIsFirst(ws: seq<Workspace>, profileId: string, id: Option<string>) returns (i: nat)
    ensures Choice(ws, profileId, id).None? ==> i == |ws|
    ensures Choice(ws, profileId, id).Some? ==>
              && i < |ws| && Choice(ws, profileId, id) == Some(ws[i]) && MemberFor(ws[i].members, profileId).Some?
              && (id.Some? ==> ws[i].id == id.value)
    ensures i <= |ws| && forall k :: 0 <= k < i && (id.Some? ==> ws[k].id == id.value) ==>
              MemberFor(ws[k].members, profileId).None?
  {
    hide MemberFor;
    if ws == [] {
      i := 0;
    } else {
      AccessibleAppended(ws, profileId);
      hide Accessible;
      if MemberFor(ws[0].members, profileId).Some? && (id.Some? ==> ws[0].id == id.value) {
        i := 0;
      } else {
        var first := if MemberFor(ws[0].members, profileId).Some? then [ws[0]] else [];
        assert (first + Accessible(ws[1..], profileId))[|first|..] == Accessible(ws[1..], profileId);
        assert Choice(ws, profileId, id) == Choice(ws[1..], profileId, id);
        var j := ChoiceIsFirst(ws[1..], profileId, id);
        i := j + 1;
        forall k | 0 <= k < i && (id.Some? ==> ws[k].id == id.value)
          ensures MemberFor(ws[k].members, profileId).None?
        {
          assert k > 0 ==> ws[k] == ws[1..][k - 1];
        }
      }
    }
  }

  lemma ChoiceIsOffered(u: Unicode, ws: seq<RawWorkspace>, profileId: string, id: Option<string>) returns (i: nat)
    requires ValidRegistry(u, ws)
    ensures var c := Choice(All(u, ws), profileId, id);
            && (c.Some? ==> Offered(u, ws, profileId, id, i) && c == Some(NormalWorkspace(u, ws[i])))
            && (c.None? ==> forall k: nat :: !Offered(u, ws, profileId, id, k))
  {
    hide Grants;
    hide MemberFor;
    hide Choice;
    hide ParseRole;
    hide Unicode.Trim;
    var all := All(u, ws);
    i := ChoiceIsFirst(all, profileId, id);
    forall k: nat | k < |ws|
      ensures all[k].id == u.Trim(ws[k].id)
      ensures (exists role :: Grants(u, ws[k], profileId, role)) <==> MemberFor(all[k].members, profileId).Some?
    {
      MemberGrants(u, ws[k], profileId);
    }
  }

  lemma MemberGrants(u: Unicode, w: RawWorkspace, profileId: string)
    requires ValidWorkspace(u, w)
    ensures (exists role :: Grants(u, w, profileId, role)) <==>
            MemberFor(NormalWorkspace(u, w).members, profileId).Some?
  {
    hide Grants;
    hide MemberFor;
    var ms := NormalWorkspace(u, w).members;
    forall role
      ensures Grants(u, w, profileId, role) <==> MemberFor(ms, profileId) == Some(Member(profileId, role))
    {
      MembersGrant(u, w, profileId, role);
    }
    if MemberFor(ms, profileId).Some? {
      MemberForIsFirst(ms, profileId, MemberFor(ms, profileId).value.role);
      assert Grants(u, w, profileId, MemberFor(ms, profileId).value.role);
    }
  }

  // ---------- Access ----------

  /** The id the profile asks for, or the one it selected before, if either says anything. */
  function Wanted(u: Unicode, s: State, profileId: string, requestedId: Option<string>): Option<string> {
    var text := match requestedId
      case Some(id) => u.Trim(id)
      case None => if profileId in s.profiles then u.Trim(s.profiles[profileId]) else "";
    if text == "" then None else Some(text)
  }

  /**
   Access is granted exactly when the registry is valid and offers the profile a workspace, with the wanted id
   if it wants one; and it is access to the first one offered, in the role that its first entry there gives.
   */
  lemma AccessExactly(u: Unicode, s: State, profileId: string, requestedId: Option<string>)
    ensures var r, id := Resolved(u, s, profileId, requestedId), Wanted(u, s, profileId, requestedId);
            && (r.Success? <==>
                  ValidRegistry(u, s.workspaces) && exists i: nat :: Offered(u, s.workspaces, profileId, id, i))
            && (r.Success? ==>
                  && r.value.profileId == profileId
                  && exists i: nat :: Offered(u, s.workspaces, profileId, id, i)
                       && u.Trim(s.workspaces[i].id) == r.value.id
                       && Grants(u, s.workspaces[i], profileId, r.value.role))
  {
    var r, id := Resolved(u, s, profileId, requestedId), Wanted(u, s, profileId, requestedId);
    if ValidRegistry(u, s.workspaces) {
      EmptyTrims(u);
      ChoiceDecides(u, s, profileId, requestedId);
      var i := ChoiceIsOffered(u, s.workspaces, profileId, id);
      hide Choice;
      hide Offered;
      hide MemberFor;
      hide Resolved;
      hide ParseRole;
      if r.Success? {
        assert Offered(u, s.workspaces, profileId, id, i);
        OfferedInRange(u, s.workspaces, profileId, id, i);
        MembersGrant(u, s.workspaces[i], profileId, r.value.role);
      }
    }
  }

  lemma EmptyTrims(u: Unicode)
    ensures u.Trim("") == ""
  {
  }

  lemma OfferedInRange(u: Unicode, ws: seq<RawWorkspace>, profileId: string, id: Option<string>, i: nat)
    requires Offered(u, ws, profileId, id, i)
    ensures i < |ws|
  {
  }

  lemma ChoiceDecides(u: Unicode, s: State, profileId: string, requestedId: Option<string>)
    requires ValidRegistry(u, s.workspaces)
    ensures var r, id := Resolved(u, s, profileId, requestedId), Wanted(u, s, profileId, requestedId);
            var c := Choice(All(u, s.workspaces), profileId, id);
            && (r.Success? <==> c.Some?)
            && (r.Success? ==>
                  && r.value.id == c.value.id && r.value.profileId == profileId
                  && MemberFor(c.value.members, profileId) == Some(Member(profileId, r.value.role)))
  {
    EmptyTrims(u);
    hide Unicode.Trim;
    hide ParseRole;
    var all := All(u, s.workspaces);
    hide All;
    AccessibleMembers(all, profileId);
    var accessible := Accessible(all, profileId);
    hide Accessible;
    var id := Wanted(u, s, profileId, requestedId);
    if id.Some? {
      WithIdFound(accessible, id.value);
    }
    hide WithId;
    forall w | w in accessible
      ensures MemberFor(w.members, profileId).Some? && MemberFor(w.members, profileId).value.profileId == profileId
    {
      MemberForIsFirst(w.members, profileId, Viewer);
    }
    hide MemberFor;
  }

  /** A profile passes exactly with access to the workspace in a role that may do as much. */
  lemma RoleRequiredExactly(u: Unicode, s: State, callerId: string, workspaceId: string, minimum: Role)
    ensures RoleGranted(u, s, callerId, workspaceId, minimum).None? <==>
            var r := Resolved(u, s, callerId, Some(workspaceId));
            r.Success? && AtLeast(r.value.role, minimum)
  {
    hide Resolved;
    var r := Resolved(u, s, callerId, Some(workspaceId));
    if r.Success? {
      RanksOrderRoles(r.value.role, minimum);
    }
  }

  // ---------- Changes ----------

  /** The place of the first entry with exactly this id, if there is one. */
  ghost predicate Place(ms: seq<RawMember>, id: string, k: nat) {
    k < |ms| && ms[k].profileId == id && forall i :: 0 <= i < k ==> ms[i].profileId != id
  }

  ghost predicate PlaceInFile(ws: seq<RawWorkspace>, id: string, k: nat) {
    k < |ws| && ws[k].id == id && forall i :: 0 <= i < k ==> ws[i].id != id
  }

  /** The entry makes an owner, and no other entry does. */
  ghost predicate OnlyOwner(u: Unicode, ms: seq<RawMember>, k: nat)
    requires k < |ms|
  {
    Spells(u, ms[k].role, Owner) && forall i :: 0 <= i < |ms| && i != k ==> !Spells(u, ms[i].role, Owner)
  }

  lemma {:induction false} NoOwners(u: Unicode, ms: seq<RawMember>)
    ensures OwnerCount(u, ms) == 0 <==> forall i :: 0 <= i < |ms| ==> !Spells(u, ms[i].role, Owner)
  {
    if ms != [] {
      var init, last := ms[..|ms| - 1], ms[|ms| - 1];
      NoOwners(u, init);
      RolesAreSpelled(u, last.role, Owner);
      hide Spells;
      hide ParseRole;
      assert OwnerCount(u, ms) == OwnerCount(u, init) + if Spells(u, last.role, Owner) then 1 else 0;
      hide OwnerCount;
      assert forall i :: 0 <= i < |init| ==> init[i] == ms[i];
      assert Spells(u, last.role, Owner) <==> Spells(u, ms[|ms| - 1].role, Owner);
    }
  }

  lemma {:induction false} FewOwners(u: Unicode, ms: seq<RawMember>, k: nat)
    requires k < |ms| && Spells(u, ms[k].role, Owner)
    ensures OwnerCount(u, ms) <= 1 <==> OnlyOwner(u, ms, k)
  {
    var init, last := ms[..|ms| - 1], ms[|ms| - 1];
    RolesAreSpelled(u, last.role, Owner);
    NoOwners(u, init);
    if k < |init| {
      FewOwners(u, init, k);
    }
    hide Spells;
    hide ParseRole;
    assert forall i :: 0 <= i < |init| ==> init[i] == ms[i];
  }

  /** One workspace of the file has got these members, and nothing else has changed. */
  predicate OnlyMembers(s: State, t: State, k: nat, ms: seq<RawMember>)
    requires k < |s.workspaces|
  {
    t == s.(workspaces := s.workspaces[k := s.workspaces[k].(members := ms)])
  }

  lemma UpsertSteps(u: Unicode, s: State, callerId: string, workspaceId: string, targetId: string, role: string,
                    displayName: string, k: nat)
    requires PlaceInFile(s.workspaces, workspaceId, k)
    ensures var (t, error) := MemberUpserted(u, s, callerId, workspaceId, targetId, role, displayName);
            var parsed := ParseRole(u, role);
            if RoleGranted(u, s, callerId, workspaceId, Owner).Some? || u.Blank(targetId) || parsed.None?
            then error.Some? && t == s
            else
              var entry := RawMember(u.Trim(targetId), u.Lower(u.Trim(role)), u.Trim(displayName));
              var r := Upserted(u, s.workspaces[k].members, entry, parsed.value);
              && (r.None? ==> error.Some? && t == s)
              && (r.Some? ==> error.None? && OnlyMembers(s, t, k, r.value))
  {
    WorkspaceAt(s.workspaces, workspaceId, k);
    hide RoleGranted;
    hide ParseRole;
    hide PlaceOfWorkspace;
    hide Upserted;
    hide Unicode.Trim;
    hide Unicode.Lower;
  }

  /**
   An owner adds or changes a member exactly by naming one and spelling a role, in a workspace of the file,
   unless that would take the last owner's role. The entry, trimmed and in small letters, takes the place of
   the member's first entry or comes last.
   */
  lemma UpsertExactly(u: Unicode, s: State, callerId: string, workspaceId: string, targetId: string, role: string,
                      displayName: string, k: nat)
    requires PlaceInFile(s.workspaces, workspaceId, k)
    ensures var (t, error) := MemberUpserted(u, s, callerId, workspaceId, targetId, role, displayName);
            var access := Resolved(u, s, callerId, Some(workspaceId));
            var before, target := s.workspaces[k].members, u.Trim(targetId);
            var entry := RawMember(target, u.Lower(u.Trim(role)), u.Trim(displayName));
            && (error.None? <==>
                  && access.Success? && access.value.role == Owner && target != ""
                  && (exists r :: Spells(u, role, r))
                  && forall at: nat :: Place(before, target, at) && OnlyOwner(u, before, at) ==> Spells(u, role, Owner))
            && (error.Some? ==> t == s)
            && (error.None? ==>
                  && (forall at: nat :: Place(before, target, at) ==> OnlyMembers(s, t, k, before[at := entry]))
                  && ((forall at: nat :: !Place(before, target, at)) ==> OnlyMembers(s, t, k, before + [entry])))
  {
    RoleRequiredExactly(u, s, callerId, workspaceId, Owner);
    UpsertSteps(u, s, callerId, workspaceId, targetId, role, displayName, k);
    forall r
      ensures ParseRole(u, role) == Some(r) <==> Spells(u, role, r)
    {
      RolesAreSpelled(u, role, r);
    }
    if ParseRole(u, role).Some? {
      var entry := RawMember(u.Trim(targetId), u.Lower(u.Trim(role)), u.Trim(displayName));
      MemberPlaced(u, s.workspaces[k].members, entry, ParseRole(u, role).value);
    }
    hide MemberUpserted;
    hide Resolved;
    hide RoleGranted;
    hide ParseRole;
    hide Spells;
    hide OnlyMembers;
    hide PlaceInFile;
    hide Upserted;
    hide Place;
    hide OnlyOwner;
    hide Unicode.Trim;
    hide Unicode.Lower;
  }

  lemma WorkspaceAt(ws: seq<RawWorkspace>, id: string, k: nat)
    requires PlaceInFile(ws, id, k)
    ensures PlaceOfWorkspace(ws, id) == k
  {
    WorkspacePlaceFound(ws, id);
  }

  lemma MemberAt(ms: seq<RawMember>, id: string)
    ensures forall i: nat :: Place(ms, id, i) <==> i == PlaceOf(ms, id) && i < |ms|
    ensures PlaceOf(ms, id) <= |ms|
  {
    PlaceFound(ms, id);
  }

  lemma MemberPlaced(u: Unicode, ms: seq<RawMember>, entry: RawMember, role: Role)
    ensures var r := Upserted(u, ms, entry, role);
            && (r.None? <==> exists at: nat :: Place(ms, entry.profileId, at) && OnlyOwner(u, ms, at) && role != Owner)
            && (r.Some? ==>
                  && (forall at: nat :: Place(ms, entry.profileId, at) ==> r.value == ms[at := entry])
                  && ((forall at: nat :: !Place(ms, entry.profileId, at)) ==> r.value == ms + [entry]))
  {
    MemberAt(ms, entry.profileId);
    var at := PlaceOf(ms, entry.profileId);
    assert Place(ms, entry.profileId, at) <==> at < |ms|;
    if at < |ms| {
      LastOwner(u, ms, at);
    }
    hide Place;
    hide PlaceOf;
    hide OwnerCount;
    hide IsOwner;
    hide OnlyOwner;
  }

  lemma LastOwner(u: Unicode, ms: seq<RawMember>, k: nat)
    requires k < |ms|
    ensures IsOwner(u, ms[k]) && OwnerCount(u, ms) <= 1 <==> OnlyOwner(u, ms, k)
  {
    RolesAreSpelled(u, ms[k].role, Owner);
    hide ParseRole;
    if Spells(u, ms[k].role, Owner) {
      FewOwners(u, ms, k);
    }
    hide Spells;
    hide OwnerCount;
  }

  lemma {:induction false} WithoutKeepsOthers(ms: seq<RawMember>, id: string, m: RawMember)
    ensures multiset(Without(ms, id))[m] == if m.profileId == id then 0 else multiset(ms)[m]
  {
    if ms != [] {
      var init, last := ms[..|ms| - 1], ms[|ms| - 1];
      WithoutKeepsOthers(init, id, m);
      assert ms == init + [last];
    }
  }

  /**
   An owner removes a member exactly by naming another with an entry in the file, unless its first entry is
   the only one of an owner. All entries of the member go and all others stay.
   */
  lemma RemoveExactly(u: Unicode, s: State, callerId: string, workspaceId: string, targetId: string, k: nat,
                      m: RawMember)
    requires PlaceInFile(s.workspaces, workspaceId, k)
    ensures var (t, error) := MemberRemoved(u, s, callerId, workspaceId, targetId);
            var access := Resolved(u, s, callerId, Some(workspaceId));
            var before, target := s.workspaces[k].members, u.Trim(targetId);
            && (error.None? <==>
                  && access.Success? && access.value.role == Owner && callerId != targetId && target != ""
                  && exists at: nat :: Place(before, target, at) && !OnlyOwner(u, before, at))
            && (error.Some? ==> t == s)
            && (error.None? ==>
                  && |t.workspaces| == |s.workspaces| && OnlyMembers(s, t, k, t.workspaces[k].members)
                  && multiset(t.workspaces[k].members)[m] == if m.profileId == target then 0 else multiset(before)[m])
  {
    RoleRequiredExactly(u, s, callerId, workspaceId, Owner);
    var before, target := s.workspaces[k].members, u.Trim(targetId);
    WorkspaceAt(s.workspaces, workspaceId, k);
    MemberAt(before, target);
    var at := PlaceOf(before, target);
    WithoutKeepsOthers(before, target, m);
    if at < |before| {
      LastOwner(u, before, at);
    }
    hide Resolved;
    hide RoleGranted;
    hide IsOwner;
    hide PlaceOf;
    hide PlaceOfWorkspace;
    hide OwnerCount;
    hide OnlyOwner;
    hide Place;
    hide AtLeast;
    hide Without;
    hide Unicode.Trim;
  }

  // ---------- Sessions ----------

  /** Sessions with an id go by it alone, others by their key; and only one with neither cannot be bound. */
  lemma SessionsGoById(n: Naming, a: string, b: string, key: string, other: string)
    ensures BindingKey(n, a, key).None? <==> n.u.Blank(a) && n.u.Blank(key)
    ensures !n.u.Blank(a) && n.u.Trim(a) == n.u.Trim(b) ==> BindingKey(n, a, key) == BindingKey(n, b, other)
    ensures n.u.Blank(a) && n.u.Blank(b) && n.u.Trim(key) == n.u.Trim(other) ==>
              BindingKey(n, a, key) == BindingKey(n, b, other)
  {
  }

  /**
   A session resolves exactly for a session with a creator: a bound one when the creator is the one it is
   bound to, and then as a request for its workspace; an unbound one as a call without a request, which binds it.
   */
  lemma SessionExactly(n: Naming, s: State, creator: Option<string>, sessionId: string, sessionKey: string)
    ensures var (t, access) := SessionResolved(n, s, creator, sessionId, sessionKey);
            var u, key := n.u, BindingKey(n, sessionId, sessionKey);
            if u.Blank(sessionKey) || creator.None? || u.Blank(creator.value) then t == s && access.None?
            else
              var profile := u.Trim(creator.value);
              && key.Some?
              && if key.value in s.sessions then
                   var bound := s.sessions[key.value];
                   var r := Resolved(u, s, profile, Some(bound.workspaceId));
                   && t == s
                   && access == (if u.Trim(bound.profileId) == profile && !u.Blank(bound.workspaceId) && r.Success?
                                 then Some(r.value) else None)
                 else
                   var r := Resolved(u, s, profile, None);
                   && access == (if r.Success? then Some(r.value) else None)
                   && t == (if r.Success? then s.(sessions := s.sessions[key.value := Binding(profile, r.value.id)])
                            else s)
  {
    var key := BindingKey(n, sessionId, sessionKey);
    if key.Some? && key.value in s.sessions {
      TrimIdempotent(n.u, s.sessions[key.value].workspaceId);
      SameRequest(n.u, s, if creator.Some? then n.u.Trim(creator.value) else "", s.sessions[key.value].workspaceId);
    }
    hide Resolved;
    hide Unicode.Trim;
  }

  lemma SameRequest(u: Unicode, s: State, profileId: string, id: string)
    ensures Resolved(u, s, profileId, Some(u.Trim(id))) == Resolved(u, s, profileId, Some(id))
  {
    TrimIdempotent(u, id);
    hide Unicode.Trim;
    hide All;
    hide ValidRegistry;
    hide Accessible;
    hide MemberFor;
    hide WithId;
  }

  /** A switch is a request, and selects what it is granted. */
  lemma SwitchExactly(u: Unicode, s: State, profileId: string, workspaceId: string)
    ensures var (t, r) := Switched(u, s, profileId, workspaceId);
            && r == Resolved(u, s, profileId, Some(workspaceId))
            && (r.Failure? ==> t == s)
            && (r.Success? ==>
                  && t == s.(profiles := t.profiles) && profileId in t.profiles && t.profiles[profileId] == r.value.id
                  && forall other :: other != profileId ==>
                       && (other in t.profiles <==> other in s.profiles)
                       && (other in s.profiles ==> t.profiles[other] == s.profiles[other]))
  {
    hide Resolved;
  }

  // ---------- Valid files ----------

  /** The file is read exactly when it has workspaces, all named, with their tenant and key, and proper members. */
  lemma ValidExactly(u: Unicode, ws: seq<RawWorkspace>)
    ensures ValidRegistry(u, ws) <==>
              && ws != []
              && forall w :: w in ws ==>
                   && !u.Blank(w.id) && !u.Blank(w.tenantId) && !u.Blank(w.apiKeyEnv)
                   && forall m :: m in w.members ==> !u.Blank(m.profileId) && exists role :: Spells(u, m.role, role)
  {
    forall w
      ensures ValidWorkspace(u, w) <==>
                && !u.Blank(w.id) && !u.Blank(w.tenantId) && !u.Blank(w.apiKeyEnv)
                && forall m :: m in w.members ==> !u.Blank(m.profileId) && exists role :: Spells(u, m.role, role)
    {
      ValidWorkspaceExactly(u, w);
    }
    hide ValidWorkspace;
    hide Spells;
    hide Unicode.Trim;
    if !ValidRegistry(u, ws) && ws != [] {
      var i :| 0 <= i < |ws| && !ValidWorkspace(u, ws[i]);
      assert ws[i] in ws;
    }
  }

  lemma ValidWorkspaceExactly(u: Unicode, w: RawWorkspace)
    ensures ValidWorkspace(u, w) <==>
              && !u.Blank(w.id) && !u.Blank(w.tenantId) && !u.Blank(w.apiKeyEnv)
              && forall m :: m in w.members ==> !u.Blank(m.profileId) && exists role :: Spells(u, m.role, role)
  {
    forall m
      ensures ValidMember(u, m) <==> !u.Blank(m.profileId) && exists role :: Spells(u, m.role, role)
    {
      ValidMemberExactly(u, m);
    }
    hide ValidMember;
    hide Spells;
    hide Unicode.Trim;
    if exists i :: 0 <= i < |w.members| && !ValidMember(u, w.members[i]) {
      var i :| 0 <= i < |w.members| && !ValidMember(u, w.members[i]);
      assert w.members[i] in w.members;
    }
  }

  lemma ValidMemberExactly(u: Unicode, m: RawMember)
    ensures ValidMember(u, m) <==> !u.Blank(m.profileId) && exists role :: Spells(u, m.role, role)
  {
    forall role
      ensures ParseRole(u, m.role) == Some(role) <==> Spells(u, m.role, role)
    {
      RolesAreSpelled(u, m.role, role);
    }
    hide ParseRole;
    hide Spells;
    hide Unicode.Trim;
    if ParseRole(u, m.role).Some? {
      assert Spells(u, m.role, ParseRole(u, m.role).value);
    }
  }
}
