/**
 Who owns workspaces and who changes their members: when a list of members can lose its last owner, that
 lists with unique ids never do, and when a change is made by an owner of the workspace it changes.
 */
module WorkspaceOwners {
  import opened Wrappers
  import opened Text
  import opened Identity
  import opened Workspaces
  import opened WorkspaceTheorems

  // ---------- Owners ----------

  ghost predicate HasOwner(u: Unicode, ms: seq<RawMember>) {
    exists i :: 0 <= i < |ms| && IsOwner(u, ms[i])
  }

  /** Each profile id names one entry. */
  ghost predicate Unique(ms: seq<RawMember>) {
    forall i, j :: 0 <= i < j < |ms| ==> ms[i].profileId != ms[j].profileId
  }

  lemma {:induction false} AnotherOwner(u: Unicode, ms: seq<RawMember>, k: nat) returns (j: nat)
    requires k < |ms| && OwnerCount(u, ms) > 1
    ensures j < |ms| && j != k && IsOwner(u, ms[j])
  {
    hide IsOwner;
    var last := |ms| - 1;
    if IsOwner(u, ms[last]) && k != last {
      j := last;
    } else if k == last {
      j := SomeOwner(u, ms[..last]);
    } else {
      j := AnotherOwner(u, ms[..last], k);
    }
  }

  lemma {:induction false} SomeOwner(u: Unicode, ms: seq<RawMember>) returns (j: nat)
    requires OwnerCount(u, ms) > 0
    ensures j < |ms| && IsOwner(u, ms[j])
  {
    hide IsOwner;
    var last := |ms| - 1;
    if IsOwner(u, ms[last]) {
      j := last;
    } else {
      j := SomeOwner(u, ms[..last]);
    }
  }

  lemma {:induction false} WithoutMembers(ms: seq<RawMember>, profileId: string, m: RawMember)
    ensures m in Without(ms, profileId) <==> m in ms && m.profileId != profileId
  {
    if ms != [] {
      WithoutMembers(ms[..|ms| - 1], profileId, m);
      assert ms == ms[..|ms| - 1] + [ms[|ms| - 1]];
    }
  }

  lemma {:induction false} WithoutStaysUnique(ms: seq<RawMember>, profileId: string)
    requires Unique(ms)
    ensures Unique(Without(ms, profileId))
  {
    if ms != [] {
      var init, m := ms[..|ms| - 1], ms[|ms| - 1];
      WithoutStaysUnique(init, profileId);
      var kept := Without(init, profileId);
      forall i | 0 <= i < |kept|
        ensures kept[i].profileId != m.profileId
      {
        WithoutMembers(init, profileId, kept[i]);
        var j :| 0 <= j < |init| && init[j] == kept[i];
        assert ms[j].profileId != ms[|ms| - 1].profileId;
      }
    }
  }

  // ---------- The access check of an owner ----------

  /** The workspace that the access check looks at: the profile's first with that trimmed id. */
  function LookedUp(u: Unicode, ws: seq<RawWorkspace>, profileId: string, id: string): Option<Workspace>
    requires ValidRegistry(u, ws)
  {
    WithId(Accessible(All(u, ws), profileId), u.Trim(id))
  }

  predicate OwnsLookedUp(u: Unicode, ws: seq<RawWorkspace>, profileId: string, id: string)
    requires ValidRegistry(u, ws)
  {
    var w := LookedUp(u, ws, profileId, id);
    w.Some? && MemberFor(w.value.members, profileId).Some? && MemberFor(w.value.members, profileId).value.role == Owner
  }

  lemma OwnerGranted(u: Unicode, s: State, callerId: string, workspaceId: string)
    requires u.Trim(workspaceId) != ""
    ensures RoleGranted(u, s, callerId, workspaceId, Owner).None? <==>
              ValidRegistry(u, s.workspaces) && OwnsLookedUp(u, s.workspaces, callerId, workspaceId)
  {
    hide ValidRegistry;
    hide All;
    if ValidRegistry(u, s.workspaces) {
      hide Accessible;
      hide MemberFor;
      var accessible := Accessible(All(u, s.workspaces), callerId);
      WithIdFound(accessible, u.Trim(workspaceId));
      AccessibleMembers(All(u, s.workspaces), callerId);
      assert accessible == [] ==> WithId(accessible, u.Trim(workspaceId)) == None;
    }
  }

  // ---------- When an owned list loses its last owner ----------

  /** Every owner entry carries the id. */
  ghost predicate OwnedUnder(u: Unicode, ms: seq<RawMember>, profileId: string) {
    HasOwner(u, ms) && forall i :: 0 <= i < |ms| && IsOwner(u, ms[i]) ==> ms[i].profileId == profileId
  }

  /** The checks a removal of the id passes. */
  predicate RemovalAllowed(u: Unicode, ms: seq<RawMember>, profileId: string) {
    PlaceFound(ms, profileId);
    var k := PlaceOf(ms, profileId);
    k < |ms| && (IsOwner(u, ms[k]) ==> OwnerCount(u, ms) > 1)
  }

  /** Removing an id takes the last owner exactly when every owner entry carries it. */
  lemma RemovalLosesOwner(u: Unicode, ms: seq<RawMember>, profileId: string)
    requires HasOwner(u, ms)
    ensures HasOwner(u, Without(ms, profileId)) <==> !OwnedUnder(u, ms, profileId)
  {
    hide IsOwner;
    if i :| 0 <= i < |ms| && IsOwner(u, ms[i]) && ms[i].profileId != profileId {
      WithoutMembers(ms, profileId, ms[i]);
      var j :| 0 <= j < |Without(ms, profileId)| && Without(ms, profileId)[j] == ms[i];
    }
    if j :| 0 <= j < |Without(ms, profileId)| && IsOwner(u, Without(ms, profileId)[j]) {
      WithoutMembers(ms, profileId, Without(ms, profileId)[j]);
    }
  }

  /** Unique ids keep an owner. */
  lemma UniqueListsKeepOwners(u: Unicode, ms: seq<RawMember>, profileId: string)
    requires Unique(ms) && HasOwner(u, ms) && RemovalAllowed(u, ms, profileId)
    ensures HasOwner(u, Without(ms, profileId))
  {
    hide IsOwner;
    PlaceFound(ms, profileId);
    RemovalLosesOwner(u, ms, profileId);
    var k := PlaceOf(ms, profileId);
    var i :| 0 <= i < |ms| && IsOwner(u, ms[i]);
    if ms[i].profileId == profileId {
      assert i == k;
      var j := AnotherOwner(u, ms, k);
      assert ms[j].profileId != profileId;
    }
  }

  /** The text a role is stored as reads back as the role. */
  lemma StoredRoleParses(u: Unicode, role: string)
    requires u.Lawful() && ParseRole(u, role).Some?
    ensures ParseRole(u, u.Lower(u.Trim(role))) == ParseRole(u, role)
  {
    var text := u.Lower(u.Trim(role));
    RoleTextStays(u, "viewer");
    RoleTextStays(u, "editor");
    RoleTextStays(u, "admin");
    RoleTextStays(u, "owner");
  }

  lemma RoleTextStays(u: Unicode, text: string)
    requires u.Lawful() && text != "" && forall i :: 0 <= i < |text| ==> 'a' <= text[i] <= 'z'
    ensures u.Lower(u.Trim(text)) == text
  {
    TrimmedIsFixed(u, text);
  }

  /** Adding or replacing a member never takes the last owner, whatever the list. */
  lemma UpsertKeepsOwner(u: Unicode, ms: seq<RawMember>, member: RawMember, role: Role)
    requires ParseRole(u, member.role) == Some(role) && HasOwner(u, ms)
    ensures var after := Upserted(u, ms, member, role);
            after.Some? ==> HasOwner(u, after.value)
  {
    hide ParseRole;
    PlaceFound(ms, member.profileId);
    var k := PlaceOf(ms, member.profileId);
    var after := Upserted(u, ms, member, role);
    if after.Some? {
      var i :| 0 <= i < |ms| && IsOwner(u, ms[i]);
      if k == |ms| {
        assert after.value[i] == ms[i];
      } else if role == Owner {
        assert after.value[k] == member;
      } else if i != k {
        assert after.value[i] == ms[i];
      } else {
        var j := AnotherOwner(u, ms, k);
        assert after.value[j] == ms[j];
      }
    }
  }

  lemma UpsertStaysUnique(u: Unicode, ms: seq<RawMember>, member: RawMember, role: Role)
    requires Unique(ms)
    ensures var after := Upserted(u, ms, member, role);
            after.Some? ==> Unique(after.value)
  {
    hide ParseRole;
    PlaceFound(ms, member.profileId);
  }

  // ---------- Over runs ----------

  ghost predicate AllUnique(ws: seq<RawWorkspace>) {
    forall i :: 0 <= i < |ws| ==> Unique(ws[i].members)
  }

  /** The same workspaces in the same places, each with an owner if it had one. */
  ghost predicate OwnersKept(u: Unicode, before: seq<RawWorkspace>, after: seq<RawWorkspace>) {
    && |after| == |before|
    && forall i :: 0 <= i < |before| ==>
         after[i].id == before[i].id && (HasOwner(u, before[i].members) ==> HasOwner(u, after[i].members))
  }

  /** The caller's removal of the target is granted, finds its member, and takes the last owner at this place. */
  ghost predicate TakesLastOwner(u: Unicode, ws: seq<RawWorkspace>, k: nat, callerId: string, workspaceId: string,
                                 targetId: string)
    requires k < |ws|
  {
    && PlaceOfWorkspace(ws, workspaceId) == k
    && ValidRegistry(u, ws) && OwnsLookedUp(u, ws, callerId, workspaceId) && callerId != targetId
    && OwnedUnder(u, ws[k].members, u.Trim(targetId)) && RemovalAllowed(u, ws[k].members, u.Trim(targetId))
  }

  lemma RemovalTakesOwner(n: Naming, s: State, k: nat, callerId: string, workspaceId: string, targetId: string)
    requires k < |s.workspaces| && HasOwner(n.u, s.workspaces[k].members)
    ensures var t := MemberRemoved(n.u, s, callerId, workspaceId, targetId).0;
            && k < |t.workspaces|
            && (!HasOwner(n.u, t.workspaces[k].members) <==>
                  TakesLastOwner(n.u, s.workspaces, k, callerId, workspaceId, targetId))
  {
    hide HasOwner;
    hide OwnedUnder;
    hide OwnsLookedUp;
    hide Resolved;
    hide ParseRole;
    hide Without;
    hide IsOwner;
    hide RoleGranted;
    var u, target := n.u, n.u.Trim(targetId);
    WorkspacePlaceFound(s.workspaces, workspaceId);
    RemovalLosesOwner(u, s.workspaces[k].members, target);
    if PlaceOfWorkspace(s.workspaces, workspaceId) == k {
      var before := s.workspaces[k].members;
      var goes := RoleGranted(u, s, callerId, workspaceId, Owner).None? && callerId != targetId && target != ""
                  && RemovalAllowed(u, before, target);
      PlaceFound(before, target);
      var t := MemberRemoved(u, s, callerId, workspaceId, targetId).0;
      assert t == if goes then s.(workspaces := s.workspaces[k := s.workspaces[k].(members := Without(before, target))])
                  else s;
      hide RemovalAllowed;
      if ValidRegistry(u, s.workspaces) {
        assert ValidWorkspace(u, s.workspaces[k]);
        OwnerGranted(u, s, callerId, workspaceId);
        if RemovalAllowed(u, before, target) {
          MemberIsNamed(u, s.workspaces[k], target);
        }
      } else {
        InvalidIsRefused(u, s, callerId, workspaceId);
      }
    }
  }

  lemma MemberIsNamed(u: Unicode, w: RawWorkspace, profileId: string)
    requires ValidWorkspace(u, w) && RemovalAllowed(u, w.members, profileId)
    ensures profileId != ""
  {
    hide ParseRole;
    PlaceFound(w.members, profileId);
    assert ValidMember(u, w.members[PlaceOf(w.members, profileId)]);
  }

  lemma InvalidIsRefused(u: Unicode, s: State, callerId: string, workspaceId: string)
    requires !ValidRegistry(u, s.workspaces)
    ensures RoleGranted(u, s, callerId, workspaceId, Owner).Some?
  {
  }

  /** An operation takes the last owner of a workspace exactly when it is such a removal. */
  lemma OperationLosesOwner(n: Naming, s: State, op: Operation, k: nat)
    requires n.u.Lawful() && k < |s.workspaces| && HasOwner(n.u, s.workspaces[k].members)
    ensures k < |After(n, s, op).workspaces|
    ensures !HasOwner(n.u, After(n, s, op).workspaces[k].members) <==>
              op.RemoveMember? && TakesLastOwner(n.u, s.workspaces, k, op.callerId, op.workspaceId, op.targetId)
  {
    hide HasOwner;
    hide TakesLastOwner;
    hide Resolved;
    hide ParseRole;
    hide Upserted;
    hide MemberRemoved;
    match op
    case ResolveSession(creator, sessionId, sessionKey) =>
    case Switch(profileId, workspaceId) =>
    case UpsertMember(caller, workspaceId, target, role, name) =>
      WorkspacePlaceFound(s.workspaces, workspaceId);
      if MemberUpserted(n.u, s, caller, workspaceId, target, role, name).1.None? {
        var member := RawMember(n.u.Trim(target), n.u.Lower(n.u.Trim(role)), n.u.Trim(name));
        StoredRoleParses(n.u, role);
        UpsertKeepsOwner(n.u, s.workspaces[k].members, member, ParseRole(n.u, role).value);
      }
    case RemoveMember(caller, workspaceId, target) =>
      RemovalTakesOwner(n, s, k, caller, workspaceId, target);
  }

  /** The operation leaves the workspace at this place without an owner. */
  ghost predicate LosesOwner(n: Naming, s: State, op: Operation, k: nat) {
    k < |After(n, s, op).workspaces| && !HasOwner(n.u, After(n, s, op).workspaces[k].members)
  }

  /** Some operation takes the last owner exactly when some caller and target do, under the workspace's own id. */
  lemma LastOwnerCanGoExactly(n: Naming, s: State, k: nat)
    requires n.u.Lawful() && k < |s.workspaces| && HasOwner(n.u, s.workspaces[k].members)
    ensures (exists op :: LosesOwner(n, s, op, k)) <==>
              exists c, t :: TakesLastOwner(n.u, s.workspaces, k, c, s.workspaces[k].id, t)
  {
    hide HasOwner;
    hide TakesLastOwner;
    hide After;
    if op :| LosesOwner(n, s, op, k) {
      OperationLosesOwner(n, s, op, k);
      TakenUnderOwnId(n.u, s.workspaces, k, op.callerId, op.workspaceId, op.targetId);
    }
    if c, t :| TakesLastOwner(n.u, s.workspaces, k, c, s.workspaces[k].id, t) {
      var op := RemoveMember(c, s.workspaces[k].id, t);
      OperationLosesOwner(n, s, op, k);
      assert LosesOwner(n, s, op, k);
    }
  }

  lemma TakenUnderOwnId(u: Unicode, ws: seq<RawWorkspace>, k: nat, callerId: string, workspaceId: string,
                        targetId: string)
    requires k < |ws| && TakesLastOwner(u, ws, k, callerId, workspaceId, targetId)
    ensures workspaceId == ws[k].id
  {
    WorkspacePlaceFound(ws, workspaceId);
  }

  lemma UpsertKeepsOwners(u: Unicode, s: State, caller: string, workspaceId: string, target: string, role: string,
                          name: string)
    requires u.Lawful() && AllUnique(s.workspaces)
    ensures var t := MemberUpserted(u, s, caller, workspaceId, target, role, name).0;
            AllUnique(t.workspaces) && OwnersKept(u, s.workspaces, t.workspaces)
  {
    hide Unique;
    hide HasOwner;
    hide RoleGranted;
    hide ParseRole;
    hide Upserted;
    if MemberUpserted(u, s, caller, workspaceId, target, role, name).1.None? {
      var k := PlaceOfWorkspace(s.workspaces, workspaceId);
      WorkspacePlaceFound(s.workspaces, workspaceId);
      hide PlaceOfWorkspace;
      var member := RawMember(u.Trim(target), u.Lower(u.Trim(role)), u.Trim(name));
      StoredRoleParses(u, role);
      UpsertStaysUnique(u, s.workspaces[k].members, member, ParseRole(u, role).value);
      if HasOwner(u, s.workspaces[k].members) {
        UpsertKeepsOwner(u, s.workspaces[k].members, member, ParseRole(u, role).value);
      }
    }
  }

  lemma RemovalKeepsOwners(u: Unicode, s: State, caller: string, workspaceId: string, target: string)
    requires AllUnique(s.workspaces)
    ensures var t := MemberRemoved(u, s, caller, workspaceId, target).0;
            AllUnique(t.workspaces) && OwnersKept(u, s.workspaces, t.workspaces)
  {
    hide Unique;
    hide HasOwner;
    hide RoleGranted;
    hide Without;
    hide IsOwner;
    hide OwnerCount;
    if MemberRemoved(u, s, caller, workspaceId, target).1.None? {
      var k := PlaceOfWorkspace(s.workspaces, workspaceId);
      WorkspacePlaceFound(s.workspaces, workspaceId);
      hide PlaceOfWorkspace;
      PlaceFound(s.workspaces[k].members, u.Trim(target));
      WithoutStaysUnique(s.workspaces[k].members, u.Trim(target));
      if HasOwner(u, s.workspaces[k].members) {
        UniqueListsKeepOwners(u, s.workspaces[k].members, u.Trim(target));
      }
    }
  }

  lemma OperationKeepsOwners(n: Naming, s: State, op: Operation)
    requires n.u.Lawful() && AllUnique(s.workspaces)
    ensures AllUnique(After(n, s, op).workspaces) && OwnersKept(n.u, s.workspaces, After(n, s, op).workspaces)
  {
    hide Unique;
    hide HasOwner;
    hide Resolved;
    hide MemberUpserted;
    hide MemberRemoved;
    match op
    case ResolveSession(creator, sessionId, sessionKey) =>
    case Switch(profileId, workspaceId) =>
    case UpsertMember(caller, workspaceId, target, role, name) =>
      UpsertKeepsOwners(n.u, s, caller, workspaceId, target, role, name);
    case RemoveMember(caller, workspaceId, target) =>
      RemovalKeepsOwners(n.u, s, caller, workspaceId, target);
  }

  /** Over every run, a workspace with unique profile ids that has an owner keeps one. */
  lemma {:induction false} OwnersStay(n: Naming, s: State, ops: seq<Operation>)
    requires n.u.Lawful() && AllUnique(s.workspaces)
    ensures AllUnique(Run(n, s, ops).workspaces) && OwnersKept(n.u, s.workspaces, Run(n, s, ops).workspaces)
  {
    if ops != [] {
      hide After;
      hide HasOwner;
      hide Unique;
      OwnersStay(n, s, ops[..|ops| - 1]);
      OperationKeepsOwners(n, Run(n, s, ops[..|ops| - 1]), ops[|ops| - 1]);
    }
  }

  /**
   Unique ids are needed: an owner listed twice counts as two owners, and removing that profile, written
   with a space so that it does not look like the caller's own, takes both entries.
   */
  lemma RepeatedIdsLoseTheOwner(u: Unicode)
    requires u.Lawful() && u.isSpace(' ')
    ensures var owner := RawMember("p", "owner", "");
            var s := State([RawWorkspace("w", [owner, owner], "t", "k")], map[], map[]);
            var (t, error) := MemberRemoved(u, s, "p", "w", " p");
            && error.None? && HasOwner(u, s.workspaces[0].members)
            && |t.workspaces| == 1 && t.workspaces[0].members == []
  {
    var owner := RawMember("p", "owner", "");
    var w := RawWorkspace("w", [owner, owner], "t", "k");
    var s := State([w], map[], map[]);
    SingleCharacters(u);
    RoleTextStays(u, "owner");
    assert ParseRole(u, "owner") == Some(Owner);
    assert ValidMember(u, owner);
    assert ValidWorkspace(u, w);
    assert ValidRegistry(u, s.workspaces);
    RequestExactly(u, s, "p", "w");
    assert w.members[0] == owner && MemberOf(u, s.workspaces, "p", "w");
    SoleWorkspace(u, s, w);
    assert IsOwner(u, owner);
    assert [owner, owner][..1] == [owner] && [owner][..0] == [];
    assert OwnerCount(u, [owner]) == 1;
    assert OwnerCount(u, w.members) == 2;
    assert IsOwner(u, w.members[0]);
    assert Without([owner], "p") == [];
    assert Without(w.members, "p") == [];
  }

  lemma SingleCharacters(u: Unicode)
    requires u.Lawful() && u.isSpace(' ')
    ensures u.Trim("w") == "w" && u.Trim("t") == "t" && u.Trim("k") == "k" && u.Trim("p") == "p" && u.Trim(" p") == "p"
    ensures u.Trim("q") == "q" && u.Trim(" w") == "w"
  {
    assert " p"[1..] == "p" && " w"[1..] == "w";
    assert u.TrimLeft(" p") == u.TrimLeft("p") == "p";
    assert u.TrimLeft(" w") == u.TrimLeft("w") == "w";
  }

  lemma SoleWorkspace(u: Unicode, s: State, w: RawWorkspace)
    requires s.workspaces == [w] && ValidRegistry(u, s.workspaces) && u.Trim("w") == "w" && u.Trim("p") == "p"
    requires w.id == "w" && w.members != [] && w.members[0].profileId == "p" && ParseRole(u, w.members[0].role)
        == Some(Owner)
    ensures Resolved(u, s, "p", Some("w")) == Success(Access("w", Owner, "p"))
  {
    hide ParseRole;
    var all := All(u, s.workspaces);
    assert s.workspaces[0] == w;
    assert all == [NormalWorkspace(u, w)];
    assert all[..0] == [];
    assert NormalWorkspace(u, w).members[0].profileId == "p";
    assert Accessible(all, "p") == all;
  }

  // ---------- Who changes members ----------

  /** The profile's first entry in the workspace itself makes it an owner there. */
  predicate OwnedBy(u: Unicode, w: RawWorkspace, profileId: string) {
    && ValidWorkspace(u, w)
    && var m := MemberFor(NormalWorkspace(u, w).members, profileId);
    m.Some? && m.value.role == Owner
  }

  /** The operation changes the workspace at this place. */
  predicate Changes(n: Naming, s: State, op: Operation, k: nat) {
    k < |s.workspaces| && k < |After(n, s, op).workspaces| && After(n, s, op).workspaces[k] != s.workspaces[k]
  }

  function Caller(op: Operation): string {
    if op.UpsertMember? || op.RemoveMember? then op.callerId else ""
  }

  /** Whoever owns the workspace the access check looks at owns the one that the write finds under that id. */
  ghost predicate OwnersAgree(u: Unicode, ws: seq<RawWorkspace>) {
    ValidRegistry(u, ws) ==>
      forall k, profileId ::
        0 <= k < |ws| && PlaceOfWorkspace(ws, ws[k].id) == k && OwnsLookedUp(u, ws, profileId, ws[k].id) ==>
          OwnedBy(u, ws[k], profileId)
  }

  /** Whatever the state around these workspaces, every change of one is made by an owner of that one. */
  ghost predicate ChangedByOwnersOnly(n: Naming, ws: seq<RawWorkspace>) {
    forall s: State, op: Operation, k: nat :: s.workspaces == ws && k < |ws| && Changes(n, s, op, k) ==>
      OwnedBy(n.u, ws[k], Caller(op))
  }

  lemma ChangeIsAddressed(n: Naming, s: State, op: Operation, k: nat)
    requires Changes(n, s, op, k)
    ensures (op.UpsertMember? || op.RemoveMember?) && k < |s.workspaces|
    ensures PlaceOfWorkspace(s.workspaces, op.workspaceId) == k && s.workspaces[k].id == op.workspaceId
    ensures RoleGranted(n.u, s, op.callerId, op.workspaceId, Owner).None? && ValidRegistry(n.u, s.workspaces)
    ensures n.u.Trim(op.workspaceId) != ""
  {
    hide Upserted;
    hide ParseRole;
    hide Without;
    hide Accessible;
    hide All;
    hide MemberFor;
    hide ValidMember;
    if op.UpsertMember? || op.RemoveMember? {
      WorkspacePlaceFound(s.workspaces, op.workspaceId);
    }
  }

  /** A padded or repeated workspace id matters exactly when the two lookups disagree about an owner. */
  lemma ChangedByOwnersExactly(n: Naming, ws: seq<RawWorkspace>)
    requires n.u.Lawful()
    ensures ChangedByOwnersOnly(n, ws) <==> OwnersAgree(n.u, ws)
  {
    hide OwnedBy;
    hide Changes;
    hide OwnsLookedUp;
    hide ValidRegistry;
    if OwnersAgree(n.u, ws) {
      forall s: State, op: Operation, k: nat | s.workspaces == ws && k < |ws| && Changes(n, s, op, k)
        ensures OwnedBy(n.u, ws[k], Caller(op))
      {
        ChangeIsAddressed(n, s, op, k);
        OwnerGranted(n.u, s, op.callerId, op.workspaceId);
      }
    }
    if ChangedByOwnersOnly(n, ws) && ValidRegistry(n.u, ws) {
      forall k, profileId | 0 <= k < |ws| && PlaceOfWorkspace(ws, ws[k].id) == k
                            && OwnsLookedUp(n.u, ws, profileId, ws[k].id)
        ensures OwnedBy(n.u, ws[k], profileId)
      {
        var s, op := OwnerCanAdd(n, ws, k, profileId);
        assert Changes(n, s, op, k);
      }
    }
  }

  /** Text longer than every id of the list. */
  function FreshId(ms: seq<RawMember>): string {
    if ms == [] then "a" else
      var shorter := FreshId(ms[1..]);
      if |ms[0].profileId| >= |shorter| then seq(|ms[0].profileId| + 1, i => 'a') else shorter
  }

  lemma {:induction false} FreshIdIsNew(u: Unicode, ms: seq<RawMember>)
    requires u.Lawful()
    ensures var id := FreshId(ms);
            && id != "" && (forall i :: 0 <= i < |id| ==> id[i] == 'a') && u.Trim(id) == id
            && forall i :: 0 <= i < |ms| ==> |ms[i].profileId| < |id|
  {
    if ms != [] {
      FreshIdIsNew(u, ms[1..]);
      forall i | 0 <= i < |ms|
        ensures |ms[i].profileId| < |FreshId(ms)|
      {
        assert i > 0 ==> ms[i] == ms[1..][i - 1];
      }
    }
    TrimmedIsFixed(u, FreshId(ms));
  }

  /** An owner of the looked-up workspace can always add a member where the write lands. */
  lemma OwnerCanAdd(n: Naming, ws: seq<RawWorkspace>, k: nat, profileId: string) returns (s: State, op: Operation)
    requires n.u.Lawful() && ValidRegistry(n.u, ws) && k < |ws| && PlaceOfWorkspace(ws, ws[k].id) == k
    requires OwnsLookedUp(n.u, ws, profileId, ws[k].id)
    ensures s.workspaces == ws && Changes(n, s, op, k) && Caller(op) == profileId
  {
    hide OwnsLookedUp;
    hide RoleGranted;
    s := State(ws, map[], map[]);
    var id := FreshId(ws[k].members);
    op := UpsertMember(profileId, ws[k].id, id, "owner", "");
    FreshIdIsNew(n.u, ws[k].members);
    RoleTextStays(n.u, "owner");
    assert ParseRole(n.u, "owner").Some?;
    hide ParseRole;
    assert ValidWorkspace(n.u, ws[k]);
    OwnerGranted(n.u, s, profileId, ws[k].id);
    PlaceFound(ws[k].members, id);
  }

  /** No two workspaces have the same id up to outer white space. */
  ghost predicate DistinctWorkspaces(u: Unicode, ws: seq<RawWorkspace>) {
    forall i, j :: 0 <= i < j < |ws| ==> u.Trim(ws[i].id) != u.Trim(ws[j].id)
  }

  lemma DistinctWorkspacesAgree(u: Unicode, ws: seq<RawWorkspace>)
    requires DistinctWorkspaces(u, ws)
    ensures OwnersAgree(u, ws)
  {
    hide MemberFor;
    hide Accessible;
    hide ParseRole;
    if ValidRegistry(u, ws) {
      forall k, profileId | 0 <= k < |ws| && PlaceOfWorkspace(ws, ws[k].id) == k
                            && OwnsLookedUp(u, ws, profileId, ws[k].id)
        ensures OwnedBy(u, ws[k], profileId)
      {
        var all := All(u, ws);
        WithIdFound(Accessible(all, profileId), u.Trim(ws[k].id));
        AccessibleMembers(all, profileId);
        var w := LookedUp(u, ws, profileId, ws[k].id).value;
        var i :| 0 <= i < |all| && all[i] == w;
        assert i == k;
      }
    }
  }

  /** With distinct workspace ids a workspace changes only at the request of one of its own owners. */
  lemma OnlyOwnersChangeMembers(n: Naming, s: State, op: Operation, k: nat)
    requires n.u.Lawful() && DistinctWorkspaces(n.u, s.workspaces) && Changes(n, s, op, k)
    ensures (op.UpsertMember? || op.RemoveMember?) && OwnedBy(n.u, s.workspaces[k], op.callerId)
  {
    hide OwnedBy;
    hide Changes;
    hide DistinctWorkspaces;
    hide OwnersAgree;
    DistinctWorkspacesAgree(n.u, s.workspaces);
    ChangedByOwnersExactly(n, s.workspaces);
    ChangeIsAddressed(n, s, op, k);
  }

  /** With distinct workspace ids the access check looks at the workspace that the write finds. */
  lemma DistinctLookup(u: Unicode, ws: seq<RawWorkspace>, k: nat, profileId: string)
    requires ValidRegistry(u, ws) && DistinctWorkspaces(u, ws) && k < |ws|
    ensures PlaceOfWorkspace(ws, ws[k].id) == k
    ensures OwnsLookedUp(u, ws, profileId, ws[k].id) <==> OwnedBy(u, ws[k], profileId)
  {
    hide MemberFor;
    hide Accessible;
    hide ParseRole;
    hide ValidMember;
    hide Unicode.Trim;
    WorkspacePlaceFound(ws, ws[k].id);
    hide PlaceOfWorkspace;
    var all, accessible := All(u, ws), Accessible(All(u, ws), profileId);
    WithIdFound(accessible, u.Trim(ws[k].id));
    hide WithId;
    AccessibleMembers(all, profileId);
    assert all[k] in all;
    var w := LookedUp(u, ws, profileId, ws[k].id);
    if w.Some? {
      var i :| 0 <= i < |all| && all[i] == w.value;
      assert i == k;
    }
  }

  /** If all owner entries carry one id, whoever is an owner has that id, and its first entry is an owner entry. */
  lemma OwnerNamesItself(u: Unicode, w: RawWorkspace, profileId: string, p: string)
    requires OwnedBy(u, w, profileId) && OwnedUnder(u, w.members, p) && u.Trim(p) == p
    ensures profileId == p && PlaceOf(w.members, p) < |w.members| && IsOwner(u, w.members[PlaceOf(w.members, p)])
  {
    hide ParseRole;
    PlaceFound(w.members, p);
    var members := NormalWorkspace(u, w).members;
    var i := FirstMember(members, profileId);
    assert members[i] == NormalMember(u, w.members[i]);
    assert IsOwner(u, w.members[i]);
    assert PlaceOf(w.members, p) == i by {
      assert forall j :: 0 <= j < i ==> members[j] == NormalMember(u, w.members[j]);
    }
  }

  lemma {:induction false} FirstMember(members: seq<Member>, profileId: string) returns (i: nat)
    requires MemberFor(members, profileId).Some?
    ensures i < |members| && members[i] == MemberFor(members, profileId).value && members[i].profileId == profileId
    ensures forall j :: 0 <= j < i ==> members[j].profileId != profileId
  {
    if members[0].profileId == profileId {
      i := 0;
    } else {
      var j := FirstMember(members[1..], profileId);
      i := j + 1;
      forall m | 0 <= m < i
        ensures members[m].profileId != profileId
      {
        assert m > 0 ==> members[m] == members[1..][m - 1];
      }
    }
  }

  /** All owner entries carry this id, at least two of them, and its first entry makes it an owner. */
  ghost predicate OwnsAloneTwice(u: Unicode, w: RawWorkspace, p: string) {
    OwnedUnder(u, w.members, p) && OwnedBy(u, w, p) && OwnerCount(u, w.members) >= 2
  }

  /**
   With distinct workspace ids, some operation takes the last owner of a workspace exactly when its owner
   entries are two or more of one profile, which makes that profile an owner there, and the id of the
   profile can be written with outer white space.
   */
  lemma LosesOwnerExactly(n: Naming, s: State, k: nat)
    requires n.u.Lawful() && ValidRegistry(n.u, s.workspaces) && DistinctWorkspaces(n.u, s.workspaces)
    requires k < |s.workspaces| && HasOwner(n.u, s.workspaces[k].members)
    ensures (exists op :: LosesOwner(n, s, op, k)) <==>
              exists p, t :: OwnsAloneTwice(n.u, s.workspaces[k], p) && t != p && n.u.Trim(t) == p
  {
    hide HasOwner;
    hide LosesOwner;
    hide OwnedBy;
    hide OwnedUnder;
    hide OwnsLookedUp;
    hide ValidRegistry;
    hide DistinctWorkspaces;
    hide IsOwner;
    var u, w := n.u, s.workspaces[k];
    LastOwnerCanGoExactly(n, s, k);
    if c, t :| TakesLastOwner(u, s.workspaces, k, c, w.id, t) {
      DistinctLookup(u, s.workspaces, k, c);
      TrimIdempotent(u, t);
      OwnerNamesItself(u, w, c, u.Trim(t));
      assert OwnsAloneTwice(u, w, u.Trim(t));
    }
    if p, t :| OwnsAloneTwice(u, w, p) && t != p && u.Trim(t) == p {
      DistinctLookup(u, s.workspaces, k, p);
      TrimIdempotent(u, t);
      OwnerNamesItself(u, w, p, p);
      assert TakesLastOwner(u, s.workspaces, k, p, w.id, t);
    }
  }

  /**
   Two workspaces whose ids differ only by a leading space: the access check finds the first, which the
   caller owns, and the write makes the caller an owner of the second, of which it was no member.
   */
  lemma PaddedIdMisdirectsWrite(n: Naming)
    requires n.u.Lawful() && n.u.isSpace(' ')
    ensures var p, q := RawMember("p", "owner", ""), RawMember("q", "owner", "");
            var ws := [RawWorkspace(" w", [p], "t", "k"), RawWorkspace("w", [q], "t", "k")];
            var s, op := State(ws, map[], map[]), UpsertMember("p", "w", "p", "owner", "");
            && After(n, s, op).workspaces == [ws[0], RawWorkspace("w", [q, p], "t", "k")]
            && Changes(n, s, op, 1) && !OwnedBy(n.u, ws[1], "p")
  {
    var u := n.u;
    var p, q := RawMember("p", "owner", ""), RawMember("q", "owner", "");
    var ws := [RawWorkspace(" w", [p], "t", "k"), RawWorkspace("w", [q], "t", "k")];
    var s, op := State(ws, map[], map[]), UpsertMember("p", "w", "p", "owner", "");
    SingleCharacters(u);
    PaddedLookup(u, ws, p, q);
    OwnerGranted(u, s, "p", "w");
    RoleTextStays(u, "owner");
    assert ws[0].id[0] == ' ' && ws[1].id[0] == 'w';
    assert PlaceOfWorkspace(ws, "w") == 1 + PlaceOfWorkspace(ws[1..], "w") == 1;
    assert q.profileId[0] == 'q' && p.profileId[0] == 'p';
    assert PlaceOf([q], "p") == 1;
    assert u.Trim("") == "";
    hide RoleGranted;
    hide OwnsLookedUp;
    assert ParseRole(u, "owner") == Some(Owner);
    hide ParseRole;
    assert Upserted(u, [q], p, Owner) == Some([q] + [p]);
    assert s.workspaces[1].members == [q] && !u.Blank("p");
    assert MemberUpserted(u, s, "p", "w", "p", "owner", "").0.workspaces == ws[1 := ws[1].(members := [q] + [p])];
    assert [q] + [p] == [q, p];
    assert NormalWorkspace(u, ws[1]).members == [Member("q", Owner)];
    assert MemberFor([Member("q", Owner)], "p") == None;
  }

  lemma PaddedLookup(u: Unicode, ws: seq<RawWorkspace>, p: RawMember, q: RawMember)
    requires u.Lawful() && u.isSpace(' ')
    requires p == RawMember("p", "owner", "") && q == RawMember("q", "owner", "")
    requires ws == [RawWorkspace(" w", [p], "t", "k"), RawWorkspace("w", [q], "t", "k")]
    ensures ValidRegistry(u, ws) && OwnsLookedUp(u, ws, "p", "w")
  {
    SingleCharacters(u);
    RoleTextStays(u, "owner");
    assert ParseRole(u, "owner") == Some(Owner);
    hide ParseRole;
    assert ValidMember(u, p) && ValidMember(u, q);
    assert ValidWorkspace(u, ws[0]) && ValidWorkspace(u, ws[1]);
    SoleMember(u, ws[0], "w", "p");
    SoleMember(u, ws[1], "w", "q");
    hide NormalWorkspace;
    hide ValidWorkspace;
    assert All(u, ws) == [Workspace("w", [Member("p", Owner)]), Workspace("w", [Member("q", Owner)])];
    hide All;
    hide ValidRegistry;
    FirstOfTwo();
  }

  lemma SoleMember(u: Unicode, w: RawWorkspace, id: string, profileId: string)
    requires ValidWorkspace(u, w) && u.Trim(w.id) == id && |w.members| == 1
    requires u.Trim(w.members[0].profileId) == profileId && ParseRole(u, w.members[0].role) == Some(Owner)
    ensures NormalWorkspace(u, w) == Workspace(id, [Member(profileId, Owner)])
  {
    hide ParseRole;
  }

  lemma FirstOfTwo()
    ensures var first, second := Workspace("w", [Member("p", Owner)]), Workspace("w", [Member("q", Owner)]);
            WithId(Accessible([first, second], "p"), "w") == Some(first)
            && MemberFor(first.members, "p") == Some(Member("p", Owner))
  {
    var first, second := Workspace("w", [Member("p", Owner)]), Workspace("w", [Member("q", Owner)]);
    assert "q"[0] == 'q' && "p"[0] == 'p';
    assert MemberFor(second.members, "p") == None;
    assert MemberFor(first.members, "p") == Some(Member("p", Owner));
    hide MemberFor;
    assert [first, second][..1] == [first] && [first][..0] == [];
    assert Accessible([first], "p") == [first];
    assert Accessible([first, second], "p") == [first];
  }
}
