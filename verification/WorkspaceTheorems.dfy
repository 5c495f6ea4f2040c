/**
 Access over every run: a bound session stays with its workspace or gets nothing, and a selected workspace
 stays selected.
 */
module WorkspaceTheorems {
  import opened Wrappers
  import opened Text
  import opened Identity
  import opened Workspaces

  // ---------- Access ----------

  /** The profile is a member of a workspace with the id. */
  ghost predicate MemberOf(u: Unicode, ws: seq<RawWorkspace>, profileId: string, id: string) {
    exists i, j :: 0 <= i < |ws| && 0 <= j < |ws[i].members|
                   && u.Trim(ws[i].id) == id && u.Trim(ws[i].members[j].profileId) == profileId
  }

  lemma {:induction false} MemberForFound(ms: seq<Member>, profileId: string)
    ensures MemberFor(ms, profileId).Some? <==> exists j :: 0 <= j < |ms| && ms[j].profileId == profileId
  {
    if ms != [] && ms[0].profileId != profileId {
      MemberForFound(ms[1..], profileId);
      if j :| 0 <= j < |ms| && ms[j].profileId == profileId {
        assert ms[1..][j - 1] == ms[j];
      }
      if j :| 0 <= j < |ms[1..]| && ms[1..][j].profileId == profileId {
        assert ms[j + 1] == ms[1..][j];
      }
    }
  }

  lemma MemberInWorkspace(u: Unicode, w: RawWorkspace, profileId: string)
    requires ValidWorkspace(u, w)
    ensures MemberFor(NormalWorkspace(u, w).members, profileId).Some? <==>
              exists j :: 0 <= j < |w.members| && u.Trim(w.members[j].profileId) == profileId
  {
    hide ParseRole;
    hide MemberFor;
    var members := NormalWorkspace(u, w).members;
    MemberForFound(members, profileId);
    if j :| 0 <= j < |w.members| && u.Trim(w.members[j].profileId) == profileId {
      assert members[j].profileId == profileId;
    }
  }

  lemma AccessibleIds(u: Unicode, ws: seq<RawWorkspace>, profileId: string, id: string)
    requires ValidRegistry(u, ws)
    ensures (exists w :: w in Accessible(All(u, ws), profileId) && w.id == id) <==> MemberOf(u, ws, profileId, id)
  {
    hide ValidWorkspace;
    hide Accessible;
    hide MemberFor;
    var all := All(u, ws);
    AccessibleMembers(all, profileId);
    if w :| w in Accessible(all, profileId) && w.id == id {
      var i :| 0 <= i < |all| && all[i] == w;
      MemberInWorkspace(u, ws[i], profileId);
      var j :| 0 <= j < |ws[i].members| && u.Trim(ws[i].members[j].profileId) == profileId;
    }
    if i, j :| 0 <= i < |ws| && 0 <= j < |ws[i].members|
               && u.Trim(ws[i].id) == id && u.Trim(ws[i].members[j].profileId) == profileId {
      MemberInWorkspace(u, ws[i], profileId);
      assert all[i] in all && all[i].id == id;
    }
  }

  /** A request for a workspace succeeds exactly for members of a valid registry, and grants that workspace only. */
  lemma RequestExactly(u: Unicode, s: State, profileId: string, id: string)
    requires u.Trim(id) != ""
    ensures var r := Resolved(u, s, profileId, Some(id));
            && (r.Success? <==> ValidRegistry(u, s.workspaces) && MemberOf(u, s.workspaces, profileId, u.Trim(id)))
            && (r.Success? ==> r.value.id == u.Trim(id) && r.value.profileId == profileId)
  {
    hide ValidRegistry;
    hide All;
    hide MemberOf;
    hide MemberFor;
    if ValidRegistry(u, s.workspaces) {
      AccessibleIds(u, s.workspaces, profileId, u.Trim(id));
      WithIdFound(Accessible(All(u, s.workspaces), profileId), u.Trim(id));
    }
  }

  // ---------- Runs ----------

  datatype Operation =
    | ResolveSession(creator: Option<string>, sessionId: string, sessionKey: string)
    | Switch(profileId: string, workspaceId: string)
    | UpsertMember(callerId: string, workspaceId: string, targetId: string, role: string, displayName: string)
    | RemoveMember(callerId: string, workspaceId: string, targetId: string)

  function After(n: Naming, s: State, op: Operation): State {
    match op
    case ResolveSession(creator, sessionId, sessionKey) => SessionResolved(n, s, creator, sessionId, sessionKey).0
    case Switch(profileId, workspaceId) => Switched(n.u, s, profileId, workspaceId).0
    case UpsertMember(caller, workspaceId, target, role, name) => MemberUpserted(n.u, s, caller, workspaceId, target,
          role, name).0
    case RemoveMember(caller, workspaceId, target) => MemberRemoved(n.u, s, caller, workspaceId, target).0
  }

  function Run(n: Naming, s: State, ops: seq<Operation>): State {
    if ops == [] then s else After(n, Run(n, s, ops[..|ops| - 1]), ops[|ops| - 1])
  }

  // ---------- Sessions ----------

  lemma {:induction false} BindingsStay(n: Naming, s: State, ops: seq<Operation>, key: string)
    requires key in s.sessions
    ensures key in Run(n, s, ops).sessions && Run(n, s, ops).sessions[key] == s.sessions[key]
  {
    if ops != [] {
      hide After;
      BindingsStay(n, s, ops[..|ops| - 1], key);
      BindingStays(n, Run(n, s, ops[..|ops| - 1]), ops[|ops| - 1], key);
    }
  }

  lemma BindingStays(n: Naming, s: State, op: Operation, key: string)
    requires key in s.sessions
    ensures key in After(n, s, op).sessions && After(n, s, op).sessions[key] == s.sessions[key]
  {
    hide Resolved;
    hide Upserted;
    hide ParseRole;
    hide Without;
  }

  /**
   Once a session has been bound, then after any run it resolves, for the profile it was bound to, to the
   workspace it was bound to exactly while the registry is valid and the profile is a member there, and
   otherwise to nothing; any other profile gets nothing.
   */
  lemma BoundSessionStaysPut(n: Naming, s: State, creator: Option<string>, sessionId: string, sessionKey: string,
                             ops: seq<Operation>, later: Option<string>)
    requires n.u.Lawful() && SessionResolved(n, s, creator, sessionId, sessionKey).1.Some?
    requires BindingKey(n, sessionId, sessionKey).Some? && BindingKey(n, sessionId, sessionKey).value !in s.sessions
    ensures var (bound, access) := SessionResolved(n, s, creator, sessionId, sessionKey);
            var t := Run(n, bound, ops);
            var again := SessionResolved(n, t, later, sessionId, sessionKey);
            && again.0 == t
            && (again.1.Some? <==>
                  && SessionProfile(n.u, later, sessionKey) == SessionProfile(n.u, creator, sessionKey)
                  && ValidRegistry(n.u, t.workspaces)
                  && MemberOf(n.u, t.workspaces, access.value.profileId, access.value.id))
            && (again.1.Some? ==>
                  again.1.value.id == access.value.id && again.1.value.profileId == access.value.profileId)
  {
    hide ValidRegistry;
    hide MemberOf;
    hide Run;
    var key := BindingKey(n, sessionId, sessionKey).value;
    var (bound, access) := SessionResolved(n, s, creator, sessionId, sessionKey);
    var profile := SessionProfile(n.u, creator, sessionKey).value;
    GrantedIdIsTrimmed(n.u, s, profile, None);
    hide Resolved;
    assert bound.sessions[key] == Binding(profile, access.value.id);
    BindingsStay(n, bound, ops, key);
    TrimIdempotent(n.u, creator.value);
    TrimIdempotent(n.u, access.value.id);
    RequestExactly(n.u, Run(n, bound, ops), profile, access.value.id);
  }

  lemma GrantedIdIsTrimmed(u: Unicode, s: State, profileId: string, requestedId: Option<string>)
    requires Resolved(u, s, profileId, requestedId).Success?
    ensures var access := Resolved(u, s, profileId, requestedId).value;
            access.id != "" && u.Trim(access.id) == access.id && access.profileId == profileId
  {
    hide ParseRole;
    var all := All(u, s.workspaces);
    var accessible := Accessible(all, profileId);
    AccessibleMembers(all, profileId);
    forall w | w in all
      ensures w.id != "" && u.Trim(w.id) == w.id
    {
      var i :| 0 <= i < |all| && all[i] == w;
      TrimIdempotent(u, s.workspaces[i].id);
    }
    forall requested
      ensures WithId(accessible, requested).Some? ==> WithId(accessible, requested).value in accessible
    {
      WithIdFound(accessible, requested);
    }
  }

  /** The operation is no switch by the profile. */
  predicate LeavesSelection(op: Operation, profileId: string) {
    !op.Switch? || op.profileId != profileId
  }

  lemma {:induction false} SelectionStays(n: Naming, s: State, ops: seq<Operation>, profileId: string)
    requires profileId in s.profiles && forall i :: 0 <= i < |ops| ==> LeavesSelection(ops[i], profileId)
    ensures profileId in Run(n, s, ops).profiles && Run(n, s, ops).profiles[profileId] == s.profiles[profileId]
  {
    hide Resolved;
    hide Upserted;
    hide ParseRole;
    hide Without;
    if ops != [] {
      var last := ops[|ops| - 1];
      SelectionStays(n, s, ops[..|ops| - 1], profileId);
      assert LeavesSelection(last, profileId);
    }
  }

  /**
   After a switch, and until the profile switches again, its plain requests resolve to the chosen workspace
   exactly while the registry is valid and the profile is a member there, and otherwise to nothing.
   */
  lemma SelectionIsKept(n: Naming, s: State, profileId: string, workspaceId: string, ops: seq<Operation>)
    requires Switched(n.u, s, profileId, workspaceId).1.Success?
    requires forall i :: 0 <= i < |ops| ==> LeavesSelection(ops[i], profileId)
    ensures var (selected, access) := Switched(n.u, s, profileId, workspaceId);
            var t := Run(n, selected, ops);
            var r := Resolved(n.u, t, profileId, None);
            && (r.Success? <==>
                  ValidRegistry(n.u, t.workspaces) && MemberOf(n.u, t.workspaces, profileId, access.value.id))
            && (r.Success? ==> r.value.id == access.value.id)
  {
    hide ValidRegistry;
    hide MemberOf;
    hide Run;
    hide LeavesSelection;
    var (selected, access) := Switched(n.u, s, profileId, workspaceId);
    var t := Run(n, selected, ops);
    GrantedIdIsTrimmed(n.u, s, profileId, Some(workspaceId));
    SelectionStays(n, selected, ops, profileId);
    RequestExactly(n.u, t, profileId, access.value.id);
    assert Resolved(n.u, t, profileId, None) == Resolved(n.u, t, profileId, Some(access.value.id));
  }
}
