/**
 The promotion service as its callers see it when no other caller interferes. Each call is the source's
 sequence of checks, backend answer and compare-and-write; its contract is `Served`, the sequential
 machine applied to the stored record. Interference is the subject of PromotionProtocol.
 */
module PromotionService {
  import opened Wrappers
  import opened Text
  import opened PromotionModel
  import opened PromotionStore
  import opened PromotionProtocol

  /** Answer and new store contents of one undisturbed call. */
  function Served(u: Unicode, records: map<string, Record>, id: string, a: Action): (Result<Record, Error>,
        map<string, Record>)
  {
    if !a.FinishCreate? && !a.Recheck? && !IsAdmin(u, a.p) then (Failure(AccessDenied), records)
    else if !ValidPrincipal(u, a.p) then (Failure(Invalid), records)
    else
      var c := Lookup(u, records, id);
      if c.Failure? then (c, records)
      else
        var next := Apply(u, c.value, a);
        if next.Failure? then (next, records)
        else
          var stored := Replaced(u, records, next.value, c.value.version);
          if stored.Failure? then (Failure(stored.error), records) else (next, stored.value)
  }

  /** Answer and new store contents of one undisturbed creation. */
  function Created(u: Unicode, records: map<string, Record>, p: Principal, input: Input, id: string,
                   reply: InspectReply, now: int): (Result<Record, Error>, map<string, Record>)
  {
    var made := NewRecord(u, p, input, id, now);
    if made.Failure? then (made, records)
    else
      var stored := Inserted(u, records, made.value);
      if stored.Failure? then (Failure(stored.error), records)
      else Served(u, stored.value, id, FinishCreate(p, reply, now))
  }

  class Service {
    const u: Unicode
    const store: CandidateStore

    constructor (store: CandidateStore)
      ensures this.store == store && this.u == store.u
    {
      this.store := store;
      this.u := store.u;
    }

    method Get(p: Principal, id: string) returns (r: Result<Record, Error>)
      requires store.u == u
      ensures r ==
              if !ValidPrincipal(u, p) then Failure(Invalid)
              else
                var c := Lookup(u, store.records, u.Trim(id));
                if c.Success? && !CanRead(u, p, c.value) then Failure(AccessDenied) else c
    {
      if !ValidPrincipal(u, p) {
        return Failure(Invalid);
      }
      r := store.Get(u.Trim(id));
      if r.Success? && !CanRead(u, p, r.value) {
        r := Failure(AccessDenied);
      }
    }

    method Update(c: Record, now: int) returns (r: Result<Record, Error>)
      requires store.u == u
      modifies store`records
      ensures var stored := Replaced(u, old(store.records), Bump(c, now), c.version);
              && r == (if stored.Success? then Success(Bump(c, now)) else Failure(stored.error))
              && store.records == (if stored.Success? then stored.value else old(store.records))
    {
      var expected := c.version;
      var next := c.(version := c.version + 1, updatedAt := now);
      var error := store.Update(next, expected);
      r := if error.Some? then Failure(error.value) else Success(next);
    }

    method InspectAndPersist(c: Record, reply: InspectReply, now: int) returns (r: Result<Record, Error>)
      requires store.u == u
      modifies store`records
      ensures var next := InspectInto(c, reply, now);
              if next.Failure? then r == next && store.records == old(store.records)
              else
                var stored := Replaced(u, old(store.records), next.value, c.version);
                && r == (if stored.Success? then next else Failure(stored.error))
                && store.records == (if stored.Success? then stored.value else old(store.records))
    {
      if reply.NoBackend? {
        return Failure(BackendFailure);
      }
      var inspection := reply.inspection;
      if inspection.checkedAt == 0 {
        inspection := inspection.(checkedAt := now);
      }
      if reply.error.Some? {
        inspection := inspection.(blockingReason := reply.error.value);
      }
      var state := Checked;
      if inspection.duplicate || !inspection.evidenceVerified || inspection.blockingReason != ""
          || inspection.validationStatus == "invalid" {
        state := Blocked;
      }
      r := Update(c.(inspection := Some(inspection), state := state), now);
    }

    /** A new record is stored before its inspection, and stays stored when the inspection cannot be made. */
    method Create(p: Principal, input: Input, id: string, reply: InspectReply, now: int)
      returns (r: Result<Record, Error>)
      requires store.u == u
      modifies store`records
      ensures (r, store.records) == Created(u, old(store.records), p, input, id, reply, now)
    {
      var made := NewRecord(u, p, input, id, now);
      if made.Failure? {
        return made;
      }
      var error := store.Create(made.value);
      if error.Some? {
        return Failure(error.value);
      }
      r := InspectAndPersist(made.value, reply, now);
    }

    method Recheck(p: Principal, id: string, reply: InspectReply, now: int) returns (r: Result<Record, Error>)
      requires store.u == u
      modifies store`records
      ensures (r, store.records) == Served(u, old(store.records), id, PromotionModel.Action.Recheck(p, reply, now))
    {
      KeyOfTrimmed(u, id);
      r := Get(p, id);
      if r.Failure? {
        return;
      }
      var c := r.value;
      if c.state == Published || c.state == RolledBack || c.state == Rejected {
        return Failure(InvalidTransition);
      }
      if !IsAuthor(u, p.userId, c) && !IsAdmin(u, p) {
        return Failure(AccessDenied);
      }
      r := InspectAndPersist(c, reply, now);
    }

    method Review(p: Principal, id: string, input: ReviewInput, now: int) returns (r: Result<Record, Error>)
      requires store.u == u
      modifies store`records
      ensures (r, store.records) == Served(u, old(store.records), id, ReviewRecord(p, input, now))
    {
      KeyOfTrimmed(u, id);
      if !IsAdmin(u, p) {
        return Failure(AccessDenied);
      }
      r := Get(p, id);
      if r.Failure? {
        return;
      }
      var c := r.value;
      if c.state != Checked && c.state != Blocked {
        return Failure(InvalidTransition);
      }
      var word := u.Lower(u.Trim(input.decision));
      if word == "reject" || word == "rejected" {
        c := c.(review := Some(PromotionModel.Review.Review("rejected", p.userId, u.Trim(input.reason), false, false,
                                                            now)),
                state := Rejected);
      } else if word == "approve" || word == "approved" {
        if !PassesGate(u, c, input) {
          return Failure(PromotionBlocked);
        }
        if c.scope == Personal {
          if !input.promoteToWorkspace {
            return Failure(PromotionBlocked);
          }
          c := c.(scope := Workspace);
        }
        c := c.(review := Some(PromotionModel.Review.Review("approved", u.Trim(p.userId), u.Trim(input.reason),
                                                            input.resolveConflict, input.promoteToWorkspace, now)),
                state := Approved);
      } else {
        return Failure(Invalid);
      }
      r := Update(c, now);
    }

    method Publish(p: Principal, id: string, reply: InspectReply, published: Result<Publication, string>, now: int)
      returns (r: Result<Record, Error>)
      requires store.u == u
      modifies store`records
      ensures (r, store.records) ==
              Served(u, old(store.records), id, PromotionModel.Action.Publish(p, reply, published, now))
    {
      KeyOfTrimmed(u, id);
      if !IsAdmin(u, p) {
        return Failure(AccessDenied);
      }
      r := Get(p, id);
      if r.Failure? {
        return;
      }
      var c := r.value;
      if c.state != Approved || c.scope != Workspace || c.review.None? || c.review.value.decision != "approved" {
        return Failure(InvalidTransition);
      }
      if reply.NoBackend? || reply.error.Some? {
        return Failure(BackendFailure);
      }
      if !FreshEnough(u, c, reply.inspection) {
        return Failure(PromotionBlocked);
      }
      c := c.(inspection := Some(reply.inspection));
      if published.Failure? {
        return Failure(BackendFailure);
      }
      c := c.(publication := Some(published.value.(publishedAt := now)), state := Published);
      r := Update(c, now);
    }

    method Rollback(p: Principal, id: string, configured: bool, failure: Option<string>, reason: string, now: int)
      returns (r: Result<Record, Error>)
      requires store.u == u
      modifies store`records
      ensures (r, store.records) ==
              Served(u, old(store.records), id, PromotionModel.Action.Rollback(p, configured, failure, reason, now))
    {
      KeyOfTrimmed(u, id);
      if !IsAdmin(u, p) {
        return Failure(AccessDenied);
      }
      r := Get(p, id);
      if r.Failure? {
        return;
      }
      var c := r.value;
      if c.state != Published || c.publication.None? {
        return Failure(InvalidTransition);
      }
      if !configured || failure.Some? {
        return Failure(BackendFailure);
      }
      c := c.(state := RolledBack, rollback := Some(RollbackRecord(now, p.userId, u.Trim(reason))));
      r := Update(c, now);
    }
  }

  lemma KeyOfTrimmed(u: Unicode, id: string)
    ensures Key(u, u.Trim(id)) == Key(u, id)
  {
    TrimIdempotent(u, id);
  }
}
