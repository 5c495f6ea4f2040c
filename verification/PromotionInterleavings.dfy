/**
 What interleaving does and does not change. The stored histories are exactly the sequential ones, and
 of two callers holding the same copy only one gets its write accepted. The backend is different: a
 candidate can be published there twice although its history records one publication.
 */
module PromotionInterleavings {
  import opened Wrappers
  import opened Text
  import opened PromotionModel
  import opened PromotionStore
  import opened PromotionProtocol

  lemma {:induction false} RunConcat(u: Unicode, s: System, a: seq<Event>, b: seq<Event>)
    requires Run(u, s, a).Some?
    ensures Run(u, s, a + b) == Run(u, Run(u, s, a).value, b)
  {
    hide Fire;
    if b == [] {
      assert a + b == a;
    } else {
      var init := b[..|b| - 1];
      assert (a + b)[..|a + b| - 1] == a + init;
      RunConcat(u, s, a, init);
    }
  }

  lemma RunTwo(u: Unicode, s: System, a: Event, b: Event)
    requires Fire(u, s, a).Some?
    ensures Run(u, s, [a, b]) == Fire(u, Fire(u, s, a).value, b)
  {
    hide Fire;
    assert [a, b][..1] == [a] && [a][..0] == [];
    assert Run(u, s, [a]) == Fire(u, s, a);
  }

  // ---------- Single steps ----------

  lemma ReadStep(u: Unicode, s: System, k: nat, id: string)
    requires Key(u, id) == Success(id) && id in s.store && k !in s.callers
    ensures Fire(u, s, Read(k, id)) == Some(s.(callers := s.callers[k := Holding(s.store[id], false)]))
  {
    hide Apply;
  }

  lemma ActStep(u: Unicode, s: System, k: nat, a: Action)
    requires k in s.callers && s.callers[k].Holding? && s.callers[k].creating == a.FinishCreate?
    requires Apply(u, s.callers[k].base, a).Success?
    ensures a.Publish? ==> a.publish.Success?
    ensures var base := s.callers[k].base;
            Fire(u, s, Act(k, a)) ==
            Some(System(s.store, s.logs, s.callers[k := Ready(base, a, Apply(u, base, a).value)],
                        if a.Publish? then s.effects + [Effect(base, a.publish.value)] else s.effects))
  {
    hide Apply;
    ApplyAdvances(u, s.callers[k].base, a);
  }

  lemma WriteStep(u: Unicode, s: System, k: nat)
    requires k in s.callers && s.callers[k].Ready?
    requires var Ready(base, a, next) := s.callers[k];
             && Key(u, next.id) == Success(next.id)
             && next.id in s.store && next.id in s.logs
             && s.store[next.id] == base && next.version == base.version + 1
    ensures var Ready(base, a, next) := s.callers[k];
            Fire(u, s, Write(k)) ==
            Some(System(s.store[next.id := next], s.logs[next.id := s.logs[next.id] + [Entry(Call(a), next)]],
                        s.callers - {k}, s.effects))
  {
    hide Apply;
  }

  lemma StaleWriteStep(u: Unicode, s: System, k: nat)
    requires k in s.callers && s.callers[k].Ready?
    requires var Ready(base, a, next) := s.callers[k];
             && Key(u, next.id) == Success(next.id)
             && next.id in s.store && s.store[next.id].version != base.version
    ensures Fire(u, s, Write(k)) == Some(s.(callers := s.callers - {k}))
  {
    hide Apply;
  }

  lemma StoredFacts(u: Unicode, s: System, id: string)
    requires SystemInv(u, s) && id in s.store
    ensures Key(u, id) == Success(id) && id in s.logs && s.store[id].id == id
  {
    hide Apply;
    hide NewRecord;
    assert StoredInv(u, s, id);
    VersionsCount(u, id, s.logs[id], |s.logs[id]| - 1);
  }

  /** One caller alone can continue any history by any call that succeeds. */
  lemma CallIsReachable(u: Unicode, s: System, id: string, a: Action) returns (events: seq<Event>)
    requires SystemInv(u, s) && s.callers == map[] && id in s.store && !a.FinishCreate?
    requires Apply(u, s.store[id], a).Success?
    ensures Run(u, s, events).Some?
    ensures var t := Run(u, s, events).value;
            && SystemInv(u, t) && t.callers == map[] && id in t.logs
            && t.logs[id] == s.logs[id] + [Entry(Call(a), Apply(u, s.store[id], a).value)]
  {
    hide Apply;
    hide NewRecord;
    hide Fire;
    hide Run;
    hide Key;
    hide SystemInv;
    var base := s.store[id];
    StoredFacts(u, s, id);
    ApplyAdvances(u, base, a);
    var read, act, write := Read(0, id), Act(0, a), Write(0);
    ReadStep(u, s, 0, id);
    FireKeepsInv(u, s, read);
    var s1 := Fire(u, s, read).value;
    ActStep(u, s1, 0, a);
    FireKeepsInv(u, s1, act);
    var s2 := Fire(u, s1, act).value;
    WriteStep(u, s2, 0);
    FireKeepsInv(u, s2, write);
    events := [read, act] + [write];
    RunTwo(u, s, read, act);
    RunConcat(u, s, [read, act], [write]);
    RunOne(u, s2, write);
  }

  lemma RunOne(u: Unicode, s: System, e: Event)
    ensures Run(u, s, [e]) == Fire(u, s, e)
  {
    hide Fire;
    assert [e][..0] == [];
  }

  /** A creation, followed at once by its own inspection when the history has one. */
  lemma CreationIsReachable(u: Unicode, p: Principal, input: Input, id: string, now: int, first: Option<Action>)
    returns (events: seq<Event>)
    requires Key(u, id) == Success(id) && NewRecord(u, p, input, id, now).Success?
    requires first.Some? ==> first.value.FinishCreate?
                             && Apply(u, NewRecord(u, p, input, id, now).value, first.value).Success?
    ensures Run(u, Start, events).Some?
    ensures var t := Run(u, Start, events).value;
            var c := NewRecord(u, p, input, id, now).value;
            && SystemInv(u, t) && t.callers == map[] && id in t.logs
            && t.logs[id] == [Entry(Creation(p, input, now), c)]
                 + (if first.Some? then [Entry(Call(first.value), Apply(u, c, first.value).value)] else [])
  {
    hide Apply;
    hide NewRecord;
    var c := NewRecord(u, p, input, id, now).value;
    NewRecordFacts(u, p, input, id, now);
    var begin := Begin(0, p, input, id, now);
    var s1 := Fire(u, Start, begin).value;
    if first.None? {
      events := [begin, Drop(0)];
      RunTwo(u, Start, begin, Drop(0));
    } else {
      ApplyAdvances(u, c, first.value);
      var act, write := Act(0, first.value), Write(0);
      var s2 := Fire(u, s1, act).value;
      assert s2.callers[0] == Ready(c, first.value, Apply(u, c, first.value).value);
      events := [begin, act] + [write];
      RunTwo(u, Start, begin, act);
      RunConcat(u, Start, [begin, act], [write]);
      RunOne(u, s2, write);
    }
    EveryRunIsLinear(u, events);
  }

  /** Every sequential history is the stored history of some run: the histories are exactly these. */
  lemma {:induction false} SequentialHistoriesAreReachable(u: Unicode, id: string, log: seq<Entry>)
    returns (events: seq<Event>)
    requires Key(u, id) == Success(id) && SequentialHistory(u, id, log)
    ensures Run(u, Start, events).Some?
    ensures var t := Run(u, Start, events).value;
            SystemInv(u, t) && t.callers == map[] && id in t.logs && t.logs[id] == log
  {
    hide Apply;
    hide NewRecord;
    hide Fire;
    hide Key;
    var Creation(p, input, now) := log[0].cause;
    var last := |log| - 1;
    if last > 0 {
      assert FollowsAt(u, log, last);
    }
    if last == 0 {
      events := CreationIsReachable(u, p, input, id, now, None);
      assert log == [log[0]];
    } else if log[last].cause.action.FinishCreate? {
      events := CreationIsReachable(u, p, input, id, now, Some(log[1].cause.action));
      assert log == [log[0]] + [log[1]];
    } else {
      PrefixIsSequential(u, id, log);
      var earlier := SequentialHistoriesAreReachable(u, id, log[..last]);
      var s := Run(u, Start, earlier).value;
      assert StoredInv(u, s, id);
      var more := CallIsReachable(u, s, id, log[last].cause.action);
      RunConcat(u, Start, earlier, more);
      events := earlier + more;
      assert log == log[..last] + [log[last]];
    }
  }

  lemma PrefixIsSequential(u: Unicode, id: string, log: seq<Entry>)
    requires SequentialHistory(u, id, log) && |log| > 1
    ensures SequentialHistory(u, id, log[..|log| - 1])
  {
    hide Apply;
    hide NewRecord;
    var init := log[..|log| - 1];
    forall i | 0 < i < |init|
      ensures FollowsAt(u, init, i)
    {
      assert FollowsAt(u, log, i);
    }
  }

  // ---------- Racing callers ----------

  lemma WriteThenStaleWrite(u: Unicode, s: System, a: nat, b: nat)
    requires a != b && a in s.callers && b in s.callers && s.callers[a].Ready? && s.callers[b].Ready?
    requires var pa, pb := s.callers[a], s.callers[b];
             && pa.base == pb.base && pa.base.id == pa.next.id == pb.next.id
             && pa.next.version == pa.base.version + 1
             && Key(u, pa.base.id) == Success(pa.base.id)
             && pa.base.id in s.store && pa.base.id in s.logs && s.store[pa.base.id] == pa.base
    ensures var pa := s.callers[a];
            Run(u, s, [Write(a), Write(b)]) ==
            Some(System(s.store[pa.base.id := pa.next],
                        s.logs[pa.base.id := s.logs[pa.base.id] + [Entry(Call(pa.action), pa.next)]],
                        s.callers - {a} - {b}, s.effects))
  {
    hide Fire;
    hide Key;
    WriteStep(u, s, a);
    StaleWriteStep(u, Fire(u, s, Write(a)).value, b);
    RunTwo(u, s, Write(a), Write(b));
  }

  /** Two callers computed from the same copy: once one has written, the other's write changes nothing. */
  lemma SecondWriterIsRefused(u: Unicode, s: System, a: nat, b: nat)
    requires SystemInv(u, s) && a != b && a in s.callers && b in s.callers
    requires s.callers[a].Ready? && s.callers[b].Ready? && s.callers[a].base == s.callers[b].base
    requires Replaced(u, s.store, s.callers[a].next, s.callers[a].base.version).Success?
    ensures var pa := s.callers[a];
            && pa.base.id in s.logs
            && Run(u, s, [Write(a), Write(b)]) ==
               Some(System(s.store[pa.base.id := pa.next],
                           s.logs[pa.base.id := s.logs[pa.base.id] + [Entry(Call(pa.action), pa.next)]],
                           s.callers - {a} - {b}, s.effects))
  {
    hide Apply;
    hide Run;
    hide Fire;
    var pa, pb := s.callers[a], s.callers[b];
    assert PhaseInv(u, s, pa) && PhaseInv(u, s, pb);
    ApplyAdvances(u, pa.base, pa.action);
    ApplyAdvances(u, pb.base, pb.action);
    WriteReplacesItsBase(u, s, a);
    WriteThenStaleWrite(u, s, a, b);
  }

  /**
   Whatever else has happened, a caller's write enters the history exactly if the record it acted on is
   still the stored one, and otherwise only ends the call; what it did at the backend stays either way.
   */
  lemma WriteCountsExactly(u: Unicode, s: System, k: nat)
    requires SystemInv(u, s) && k in s.callers && s.callers[k].Ready?
    ensures Fire(u, s, Write(k)).Some?
    ensures var Ready(base, a, next) := s.callers[k];
            var t := Fire(u, s, Write(k)).value;
            && t.effects == s.effects && t.callers == s.callers - {k}
            && (t.logs != s.logs <==> base.id in s.store && s.store[base.id].version == base.version)
            && (t.logs != s.logs ==>
                  && base.id in s.logs && s.store[base.id] == base
                  && t.logs == s.logs[base.id := s.logs[base.id] + [Entry(Call(a), next)]]
                  && t.store == s.store[base.id := next])
            && (t.logs == s.logs ==> t.store == s.store)
  {
    hide Apply;
    hide NewRecord;
    var ph := s.callers[k];
    var id := ph.base.id;
    assert PhaseInv(u, s, ph);
    ApplyAdvances(u, ph.base, ph.action);
    assert StoredInv(u, s, id);
    VersionsCount(u, id, s.logs[id], |s.logs[id]| - 1);
    hide Key;
    if s.store[id].version == ph.base.version {
      WriteReplacesItsBase(u, s, k);
      WriteStep(u, s, k);
      hide Fire;
      var longer := s.logs[id := s.logs[id] + [Entry(Call(ph.action), ph.next)]];
      assert |longer[id]| != |s.logs[id]|;
    } else {
      StaleWriteStep(u, s, k);
    }
  }

  lemma ReadAndActTwice(u: Unicode, s: System, id: string, a: Action, b: Action) returns (t: System)
    requires s.callers == map[] && id in s.store && Key(u, id) == Success(id)
    requires a.Publish? && b.Publish? && Apply(u, s.store[id], a).Success? && Apply(u, s.store[id], b).Success?
    ensures a.publish.Success? && b.publish.Success?
    ensures Run(u, s, [Read(0, id), Read(1, id)] + [Act(0, a), Act(1, b)]) == Some(t)
    ensures var base := s.store[id];
            t == System(s.store, s.logs,
                        map[0 := Ready(base, a, Apply(u, base, a).value), 1 := Ready(base, b, Apply(u, base, b).value)],
                        s.effects + [Effect(base, a.publish.value), Effect(base, b.publish.value)])
  {
    hide Apply;
    hide Fire;
    hide Key;
    var base := s.store[id];
    ReadStep(u, s, 0, id);
    var s1 := Fire(u, s, Read(0, id)).value;
    ReadStep(u, s1, 1, id);
    var s2 := Fire(u, s1, Read(1, id)).value;
    ActStep(u, s2, 0, a);
    var s3 := Fire(u, s2, Act(0, a)).value;
    ActStep(u, s3, 1, b);
    t := Fire(u, s3, Act(1, b)).value;
    assert s.effects + [Effect(base, a.publish.value)] + [Effect(base, b.publish.value)]
        == s.effects + [Effect(base, a.publish.value), Effect(base, b.publish.value)];
    RunTwo(u, s, Read(0, id), Read(1, id));
    RunTwo(u, s2, Act(0, a), Act(1, b));
    RunConcat(u, s, [Read(0, id), Read(1, id)], [Act(0, a), Act(1, b)]);
  }

  /**
   Two administrators publish one approved candidate at the same time: the backend carries out both
   publications, but the history records only the first.
   */
  lemma RacingPublicationsBothTakeEffect(u: Unicode, s: System, id: string, a: Action, b: Action)
    requires SystemInv(u, s) && s.callers == map[] && id in s.store
    requires a.Publish? && b.Publish? && Apply(u, s.store[id], a).Success? && Apply(u, s.store[id], b).Success?
    ensures var t := Run(u, s, [Read(0, id), Read(1, id)] + [Act(0, a), Act(1, b)] + [Write(0), Write(1)]);
            && t.Some? && a.publish.Success? && b.publish.Success?
            && t.value.effects
               == s.effects + [Effect(s.store[id], a.publish.value), Effect(s.store[id], b.publish.value)]
            && id in t.value.logs
            && t.value.logs[id] == s.logs[id] + [Entry(Call(a), Apply(u, s.store[id], a).value)]
  {
    hide *;
    StoredFacts(u, s, id);
    ApplyAdvances(u, s.store[id], a);
    ApplyAdvances(u, s.store[id], b);
    var t := ReadAndActTwice(u, s, id, a, b);
    WriteThenStaleWrite(u, t, 0, 1);
    RunConcat(u, s, [Read(0, id), Read(1, id)] + [Act(0, a), Act(1, b)], [Write(0), Write(1)]);
  }
}
