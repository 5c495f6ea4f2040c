/**
 A service call is one caller's events of the concurrent protocol: read, act and, unless the call is
 refused, write. Undisturbed, they leave exactly the store that the call leaves.
 */
module PromotionRefinement {
  import opened Wrappers
  import opened Text
  import opened PromotionModel
  import opened PromotionStore
  import opened PromotionProtocol
  import opened PromotionInterleavings
  import opened PromotionService

  /** The events of a call: none for an unknown record, and no write for a refused call. */
  function CallEvents(u: Unicode, records: map<string, Record>, id: string, a: Action): seq<Event> {
    var c := Lookup(u, records, id);
    if c.Failure? then []
    else if Apply(u, c.value, a).Failure? then [Read(0, id), Act(0, a)]
    else [Read(0, id), Act(0, a), Write(0)]
  }

  lemma ReadKnown(u: Unicode, s: System, k: nat, id: string)
    requires k !in s.callers
    ensures var c := Lookup(u, s.store, id);
            Fire(u, s, Read(k, id))
            == if c.Failure? then None else Some(s.(callers := s.callers[k := Holding(c.value, false)]))
  {
  }

  lemma ServedAfterLookup(u: Unicode, records: map<string, Record>, id: string, a: Action)
    requires !a.FinishCreate? && Lookup(u, records, id).Success?
    ensures var next := Apply(u, Lookup(u, records, id).value, a);
            Served(u, records, id, a) ==
            if next.Failure? then (next, records)
            else
              var stored := Replaced(u, records, next.value, Lookup(u, records, id).value.version);
              if stored.Failure? then (Failure(stored.error), records) else (next, stored.value)
  {
    hide InspectInto;
    hide PassesGate;
    hide FreshEnough;
  }

  lemma RunThree(u: Unicode, s: System, a: Event, b: Event, c: Event)
    requires Run(u, s, [a, b]).Some?
    ensures Run(u, s, [a, b, c]) == Fire(u, Run(u, s, [a, b]).value, c)
  {
    hide Fire;
    assert [a, b, c][..2] == [a, b];
  }

  /** Acting on a copy of the stored record and writing the result back. */
  lemma ActAndWrite(u: Unicode, s: System, a: Action, key: string, creating: bool)
    requires key in s.store && key in s.logs && s.store[key].id == key && Key(u, key) == Success(key)
    requires SystemInv(u, s) && s.callers == map[0 := Holding(s.store[key], creating)]
    requires creating == a.FinishCreate?
    ensures Fire(u, s, Act(0, a)).Some?
    ensures var base, next := s.store[key], Apply(u, s.store[key], a);
            var acted := Fire(u, s, Act(0, a)).value;
            if next.Failure? then
              acted == s.(callers := map[]) && Fire(u, acted, Write(0)) == None
            else
              var written := Fire(u, acted, Write(0));
              && Replaced(u, s.store, next.value, base.version) == Success(s.store[key := next.value])
              && written.Some? && written.value.callers == map[]
              && written.value.store == s.store[key := next.value]
              && written.value.logs == s.logs[key := s.logs[key] + [Entry(Call(a), next.value)]]
  {
    hide Apply;
    hide SystemInv;
    var base := s.store[key];
    assert s.callers - {0} == map[];
    if Apply(u, base, a).Success? {
      ActStep(u, s, 0, a);
      ApplyAdvances(u, base, a);
      var acted := Fire(u, s, Act(0, a)).value;
      WriteStep(u, acted, 0);
      assert acted.callers - {0} == map[];
      hide Fire;
    }
  }

  /**
   A call on an idle system is the run of its events by one caller. The run leaves the store that the call
   leaves and an idle system; the record's history grows by the call exactly if the call succeeds.
   */
  lemma ServedIsOneCaller(u: Unicode, s: System, id: string, a: Action)
    requires SystemInv(u, s) && s.callers == map[] && !a.FinishCreate?
    ensures var (answer, records) := Served(u, s.store, id, a);
            var run := Run(u, s, CallEvents(u, s.store, id, a));
            && run.Some? && run.value.store == records && run.value.callers == map[]
            && (Lookup(u, s.store, id).Failure? ==> answer.Failure? && Fire(u, s, Read(0, id)) == None)
            && (Lookup(u, s.store, id).Success? ==>
                  var key := Key(u, id).value;
                  && answer == Apply(u, s.store[key], a) && key in s.logs
                  && (answer.Success? <==> Run(u, s, [Read(0, id), Act(0, a), Write(0)]).Some?)
                  && run.value.logs == if answer.Failure? then s.logs
                                       else s.logs[key := s.logs[key] + [Entry(Call(a), answer.value)]])
  {
    hide Apply;
    hide SystemInv;
    hide Run;
    var read, act, write := Read(0, id), Act(0, a), Write(0);
    ReadKnown(u, s, 0, id);
    if Lookup(u, s.store, id).Failure? {
      NothingRun(u, s);
    } else {
      hide Fire;
      var key := Key(u, id).value;
      StoredFacts(u, s, key);
      ServedAfterLookup(u, s.store, id, a);
      hide Served;
      hide Key;
      var held := Fire(u, s, read).value;
      assert held.callers == map[0 := Holding(s.store[key], false)];
      HeldInv(u, s, read);
      ActAndWrite(u, held, a, key, false);
      RunTwo(u, s, read, act);
      RunThree(u, s, read, act, write);
    }
  }

  lemma HeldInv(u: Unicode, s: System, e: Event)
    requires SystemInv(u, s) && Fire(u, s, e).Some?
    ensures SystemInv(u, Fire(u, s, e).value)
  {
    hide *;
    FireKeepsInv(u, s, e);
  }

  lemma NothingRun(u: Unicode, s: System)
    ensures Run(u, s, []) == Some(s)
  {
  }

  /** The events of a creation: none if it is refused, and no write if the inspection cannot be made. */
  function CreationEvents(u: Unicode, records: map<string, Record>, p: Principal, input: Input, id: string,
                          reply: InspectReply, now: int): seq<Event> {
    var made, finish := NewRecord(u, p, input, id, now), FinishCreate(p, reply, now);
    if made.Failure? || Inserted(u, records, made.value).Failure? then []
    else if reply.NoBackend? then [Begin(0, p, input, id, now), Act(0, finish)]
    else [Begin(0, p, input, id, now), Act(0, finish), Write(0)]
  }

  /** Likewise a creation on an idle system, under an id that is a key, is the run of its events. */
  lemma CreationIsOneCaller(u: Unicode, s: System, p: Principal, input: Input, id: string, reply: InspectReply,
                            now: int)
    requires SystemInv(u, s) && s.callers == map[] && Key(u, id) == Success(id)
    ensures var (answer, records) := Created(u, s.store, p, input, id, reply, now);
            var events := CreationEvents(u, s.store, p, input, id, reply, now);
            var run := Run(u, s, events);
            && run.Some? && run.value.store == records && run.value.callers == map[]
            && (answer.Success? <==> |events| == 3)
            && (events == [] <==> Fire(u, s, Begin(0, p, input, id, now)) == None)
  {
    hide NewRecord;
    hide SystemInv;
    hide Run;
    var made, finish := NewRecord(u, p, input, id, now), FinishCreate(p, reply, now);
    var begin, act, write := Begin(0, p, input, id, now), Act(0, finish), Write(0);
    NothingRun(u, s);
    if made.Success? {
      NewRecordFacts(u, p, input, id, now);
      hide Key;
      if Inserted(u, s.store, made.value).Success? {
        var begun := Fire(u, s, begin).value;
        assert begun.store == s.store[id := made.value];
        assert begun.callers == map[0 := Holding(begun.store[id], true)];
        CreationPrincipal(u, p, input, id, now);
        hide InspectInto;
        HeldInv(u, s, begin);
        ActAndWrite(u, begun, finish, id, true);
        RunTwo(u, s, begin, act);
        RunThree(u, s, begin, act, write);
        ServedCreation(u, begun.store, p, id, reply, now);
        hide Fire;
        hide Served;
        hide Apply;
      }
    }
  }

  lemma CreationPrincipal(u: Unicode, p: Principal, input: Input, id: string, now: int)
    requires NewRecord(u, p, input, id, now).Success?
    ensures ValidPrincipal(u, p)
  {
  }

  lemma ServedCreation(u: Unicode, records: map<string, Record>, p: Principal, id: string, reply: InspectReply,
                       now: int)
    requires ValidPrincipal(u, p) && Key(u, id) == Success(id) && id in records
    ensures var next := InspectInto(records[id], reply, now);
            && (next.Failure? <==> reply.NoBackend?)
            && Served(u, records, id, FinishCreate(p, reply, now)) ==
               if next.Failure? then (next, records)
               else
                 var stored := Replaced(u, records, next.value, records[id].version);
                 if stored.Failure? then (Failure(stored.error), records) else (next, stored.value)
  {
    hide Key;
  }
}
