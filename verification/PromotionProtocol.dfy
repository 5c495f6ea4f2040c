/**
 Concurrent promotion callers over one store.

 A service call takes the store lock twice: once to read (or create) a record and once to write it
 back. Between the two it holds a private copy, asks the backend and computes the next record. The
 lock makes each access one step, so a run is any sequence of the events below by any number of
 callers. Every run leaves, for every candidate, a history that a single caller could have produced.
 */
module PromotionProtocol {
  import opened Wrappers
  import opened Text
  import opened PromotionModel
  import opened PromotionStore

  // ---------- Histories ----------

  datatype Cause = Creation(p: Principal, input: Input, now: int) | Call(action: Action)
  datatype Entry = Entry(cause: Cause, record: Record)

  /** A history of the sequential state machine: a creation, then calls each applied to the previous record. */
  ghost predicate SequentialHistory(u: Unicode, id: string, log: seq<Entry>) {
    && log != []
    && log[0].cause.Creation?
    && NewRecord(u, log[0].cause.p, log[0].cause.input, id, log[0].cause.now) == Success(log[0].record)
    && forall i :: 0 < i < |log| ==> FollowsAt(u, log, i)
  }

  ghost predicate FollowsAt(u: Unicode, log: seq<Entry>, i: nat)
    requires 0 < i < |log|
  {
    && log[i].cause.Call?
    && (log[i].cause.action.FinishCreate? ==> i == 1)
    && Apply(u, log[i - 1].record, log[i].cause.action) == Success(log[i].record)
  }

  // ---------- The concurrent system ----------

  /** What a caller holds between its two store accesses. */
  datatype Phase =
    | Holding(base: Record, creating: bool)
    | Ready(base: Record, action: Action, next: Record)

  /** A publication the backend has carried out, and the record it was carried out for. */
  datatype Effect = Effect(base: Record, publication: Publication)

  datatype System = System(
    store: map<string, Record>,
    logs: map<string, seq<Entry>>,
    callers: map<nat, Phase>,
    effects: seq<Effect>)

  datatype Event =
    | Begin(caller: nat, p: Principal, input: Input, id: string, now: int)
    | Read(caller: nat, id: string)
    | Act(caller: nat, action: Action)
    | Write(caller: nat)
    | Drop(caller: nat)

  const Start := System(map[], map[], map[], [])

  function Logged(s: System, id: string, e: Entry): map<string, seq<Entry>> {
    s.logs[id := (if id in s.logs then s.logs[id] else []) + [e]]
  }

  /** One step of one caller; `None` when the event cannot happen in this state. */
  function Fire(u: Unicode, s: System, e: Event): Option<System> {
    match e
    case Begin(k, p, input, id, now) =>
      var c := NewRecord(u, p, input, id, now);
      if k in s.callers || c.Failure? || Key(u, id) != Success(id) then None
      else
        var stored := Inserted(u, s.store, c.value);
        if stored.Failure? then None
        else Some(s.(store := stored.value,
                     logs := Logged(s, id, Entry(Creation(p, input, now), c.value)),
                     callers := s.callers[k := Holding(c.value, true)]))
    case Read(k, id) =>
      var c := Lookup(u, s.store, id);
      if k in s.callers || c.Failure? then None
      else Some(s.(callers := s.callers[k := Holding(c.value, false)]))
    case Act(k, a) =>
      if k !in s.callers || !s.callers[k].Holding? || s.callers[k].creating != a.FinishCreate? then None
      else
        var base := s.callers[k].base;
        var next := Apply(u, base, a);
        if next.Failure? then Some(s.(callers := s.callers - {k}))
        else
          var effects := if a.Publish? then s.effects + [Effect(base, a.publish.value)] else s.effects;
          Some(s.(callers := s.callers[k := Ready(base, a, next.value)], effects := effects))
    case Write(k) =>
      if k !in s.callers || !s.callers[k].Ready? then None
      else
        var Ready(base, a, next) := s.callers[k];
        var stored := Replaced(u, s.store, next, base.version);
        if stored.Failure? then Some(s.(callers := s.callers - {k}))
        else Some(s.(store := stored.value,
                     logs := Logged(s, next.id, Entry(Call(a), next)),
                     callers := s.callers - {k}))
    case Drop(k) =>
      Some(s.(callers := s.callers - {k}))
  }

  function Run(u: Unicode, s: System, events: seq<Event>): Option<System> {
    if events == [] then Some(s)
    else
      var prior := Run(u, s, events[..|events| - 1]);
      if prior.None? then None else Fire(u, prior.value, events[|events| - 1])
  }

  // ---------- Linear histories ----------

  ghost predicate LogInv(u: Unicode, s: System) {
    && s.logs.Keys == s.store.Keys
    && forall id :: id in s.logs ==> StoredInv(u, s, id)
  }

  ghost predicate StoredInv(u: Unicode, s: System, id: string)
    requires id in s.logs && id in s.store
  {
    && Key(u, id) == Success(id)
    && SequentialHistory(u, id, s.logs[id])
    && s.store[id] == s.logs[id][|s.logs[id]| - 1].record
  }

  /** The record is the one its version number points at in the stored history. */
  ghost predicate Recorded(s: System, c: Record) {
    && c.id in s.logs
    && 1 <= c.version <= |s.logs[c.id]|
    && s.logs[c.id][c.version - 1].record == c
  }

  ghost predicate PhaseInv(u: Unicode, s: System, ph: Phase) {
    && Recorded(s, ph.base)
    && (ph.Holding? && ph.creating ==> ph.base.version == 1)
    && (ph.Ready? ==>
          && Apply(u, ph.base, ph.action) == Success(ph.next)
          && (ph.action.FinishCreate? ==> ph.base.version == 1))
  }

  ghost predicate EffectInv(u: Unicode, s: System, e: Effect) {
    Recorded(s, e.base) && e.base.state == Approved
  }

  ghost predicate SystemInv(u: Unicode, s: System) {
    && LogInv(u, s)
    && (forall k :: k in s.callers ==> PhaseInv(u, s, s.callers[k]))
    && (forall i :: 0 <= i < |s.effects| ==> EffectInv(u, s, s.effects[i]))
  }

  /** A successful call keeps the identity of its record and moves the version on by one. */
  lemma ApplyAdvances(u: Unicode, c: Record, a: Action)
    requires Apply(u, c, a).Success?
    ensures var n := Apply(u, c, a).value;
            n.id == c.id && n.version == c.version + 1
    ensures a.Publish? ==> a.publish.Success? && c.state == Approved
  {
  }

  lemma NewRecordFacts(u: Unicode, p: Principal, input: Input, id: string, now: int)
    requires NewRecord(u, p, input, id, now).Success?
    ensures var c := NewRecord(u, p, input, id, now).value;
            c.id == id && c.version == 1 && c.state == Candidate
  {
  }

  lemma {:induction false} VersionsCount(u: Unicode, id: string, log: seq<Entry>, i: nat)
    requires SequentialHistory(u, id, log) && i < |log|
    ensures log[i].record.version == i + 1 && log[i].record.id == id
  {
    hide Apply;
    hide NewRecord;
    if i == 0 {
      NewRecordFacts(u, log[0].cause.p, log[0].cause.input, id, log[0].cause.now);
    }
    if i > 0 {
      VersionsCount(u, id, log, i - 1);
      assert FollowsAt(u, log, i);
      ApplyAdvances(u, log[i - 1].record, log[i].cause.action);
    }
  }

  lemma RecordedSurvives(s: System, t: System, c: Record)
    requires Recorded(s, c)
    requires forall id :: id in s.logs ==> id in t.logs && s.logs[id] <= t.logs[id]
    ensures Recorded(t, c)
  {
    hide Apply;
    hide NewRecord;
    assert s.logs[c.id] <= t.logs[c.id];
  }

  /** Writing one record and its history entry keeps every stored history sequential. */
  lemma StoringKeepsLogs(u: Unicode, s: System, t: System, id: string, log: seq<Entry>)
    requires LogInv(u, s)
    requires Key(u, id) == Success(id) && SequentialHistory(u, id, log)
    requires t.logs == s.logs[id := log] && t.store == s.store[id := log[|log| - 1].record]
    ensures LogInv(u, t)
  {
    hide Apply;
    hide NewRecord;
    hide SequentialHistory;
    hide Key;
    forall other | other in t.logs
      ensures StoredInv(u, t, other)
    {
      if other != id {
        assert StoredInv(u, s, other);
      }
    }
  }

  lemma BeginEffect(u: Unicode, s: System, e: Event)
    requires e.Begin? && Fire(u, s, e).Some?
    ensures NewRecord(u, e.p, e.input, e.id, e.now).Success? && Key(u, e.id) == Success(e.id)
    ensures e.id !in s.store && e.caller !in s.callers
    ensures var c := NewRecord(u, e.p, e.input, e.id, e.now).value;
            Fire(u, s, e).value == System(
              s.store[e.id := c], Logged(s, e.id, Entry(Creation(e.p, e.input, e.now), c)),
              s.callers[e.caller := Holding(c, true)], s.effects)
  {
    hide Apply;
    hide NewRecord;
    NewRecordFacts(u, e.p, e.input, e.id, e.now);
  }

  lemma BeginKeepsInv(u: Unicode, s: System, e: Event)
    requires SystemInv(u, s) && e.Begin? && Fire(u, s, e).Some?
    ensures SystemInv(u, Fire(u, s, e).value)
  {
    hide Apply;
    hide NewRecord;
    hide Fire;
    hide Key;
    BeginEffect(u, s, e);
    NewRecordFacts(u, e.p, e.input, e.id, e.now);
    var t := Fire(u, s, e).value;
    var c := NewRecord(u, e.p, e.input, e.id, e.now).value;
    var log := [Entry(Creation(e.p, e.input, e.now), c)];
    assert t.logs[e.id] == log;
    assert SequentialHistory(u, e.id, log);
    StoringKeepsLogs(u, s, t, e.id, log);
    OthersKept(u, s, t);
  }

  /** Histories that only grow keep every private copy and every effect accounted for. */
  lemma OthersKept(u: Unicode, s: System, t: System)
    requires SystemInv(u, s)
    requires forall id :: id in s.logs ==> id in t.logs && s.logs[id] <= t.logs[id]
    ensures forall k :: k in s.callers ==> PhaseInv(u, t, s.callers[k])
    ensures forall i :: 0 <= i < |s.effects| ==> EffectInv(u, t, s.effects[i])
  {
    hide Apply;
    hide NewRecord;
    forall k | k in s.callers
      ensures PhaseInv(u, t, s.callers[k])
    {
      RecordedSurvives(s, t, s.callers[k].base);
    }
    forall i | 0 <= i < |s.effects|
      ensures EffectInv(u, t, s.effects[i])
    {
      RecordedSurvives(s, t, s.effects[i].base);
    }
  }

  lemma ReadKeepsInv(u: Unicode, s: System, e: Event)
    requires SystemInv(u, s) && e.Read? && Fire(u, s, e).Some?
    ensures SystemInv(u, Fire(u, s, e).value)
  {
    hide Apply;
    hide NewRecord;
    var t := Fire(u, s, e).value;
    var key := Key(u, e.id).value;
    assert StoredInv(u, s, key);
    VersionsCount(u, key, s.logs[key], |s.logs[key]| - 1);
    assert Recorded(t, s.store[key]);
    forall id | id in t.logs
      ensures StoredInv(u, t, id)
    {
      assert StoredInv(u, s, id);
    }
    OthersKept(u, s, t);
  }

  lemma LogsUntouched(u: Unicode, s: System, t: System)
    requires LogInv(u, s) && t.logs == s.logs && t.store == s.store
    ensures LogInv(u, t)
  {
    hide Apply;
    hide NewRecord;
    hide SequentialHistory;
    hide Key;
    forall id | id in t.logs
      ensures StoredInv(u, t, id)
    {
      assert StoredInv(u, s, id);
    }
  }

  lemma ActEffect(u: Unicode, s: System, k: nat, a: Action)
    requires Fire(u, s, Act(k, a)).Some?
    ensures k in s.callers && s.callers[k].Holding? && s.callers[k].creating == a.FinishCreate?
    ensures var base := s.callers[k].base;
            var next := Apply(u, base, a);
            && (next.Success? && a.Publish? ==> a.publish.Success? && base.state == Approved)
            && Fire(u, s, Act(k, a)).value ==
               if next.Failure? then s.(callers := s.callers - {k})
               else System(s.store, s.logs, s.callers[k := Ready(base, a, next.value)],
                           if a.Publish? then s.effects + [Effect(base, a.publish.value)] else s.effects)
  {
    hide Apply;
    if Apply(u, s.callers[k].base, a).Success? {
      ApplyAdvances(u, s.callers[k].base, a);
    }
  }

  lemma ActKeepsInv(u: Unicode, s: System, e: Event)
    requires SystemInv(u, s) && e.Act? && Fire(u, s, e).Some?
    ensures SystemInv(u, Fire(u, s, e).value)
  {
    hide Apply;
    hide NewRecord;
    hide LogInv;
    hide Recorded;
    hide Fire;
    var t := Fire(u, s, e).value;
    ActEffect(u, s, e.caller, e.action);
    assert PhaseInv(u, s, s.callers[e.caller]);
    LogsUntouched(u, s, t);
    OthersKept(u, s, t);
    RecordedSurvives(s, t, s.callers[e.caller].base);
  }

  /** The heart of the argument: a copy that passes the version check is the current record. */
  lemma WriteReplacesItsBase(u: Unicode, s: System, k: nat)
    requires SystemInv(u, s) && k in s.callers && s.callers[k].Ready?
    requires Replaced(u, s.store, s.callers[k].next, s.callers[k].base.version).Success?
    ensures var ph := s.callers[k];
            && ph.base.id == ph.next.id && ph.next.id in s.store
            && Key(u, ph.next.id) == Success(ph.next.id)
            && s.store[ph.next.id] == ph.base
  {
    hide Apply;
    hide NewRecord;
    var ph := s.callers[k];
    var id := ph.base.id;
    assert PhaseInv(u, s, ph);
    ApplyAdvances(u, ph.base, ph.action);
    assert StoredInv(u, s, id);
    VersionsCount(u, id, s.logs[id], |s.logs[id]| - 1);
  }

  lemma CallExtendsHistory(u: Unicode, id: string, log: seq<Entry>, a: Action, next: Record)
    requires SequentialHistory(u, id, log)
    requires Apply(u, log[|log| - 1].record, a) == Success(next)
    requires a.FinishCreate? ==> |log| == 1
    ensures SequentialHistory(u, id, log + [Entry(Call(a), next)])
  {
    hide Apply;
    hide NewRecord;
    var longer := log + [Entry(Call(a), next)];
    forall i | 0 < i < |longer|
      ensures FollowsAt(u, longer, i)
    {
      if i < |log| {
        assert FollowsAt(u, log, i);
      }
    }
  }

  lemma WriteKeepsInv(u: Unicode, s: System, e: Event)
    requires SystemInv(u, s) && e.Write? && Fire(u, s, e).Some?
    ensures SystemInv(u, Fire(u, s, e).value)
  {
    hide Apply;
    hide NewRecord;
    hide SequentialHistory;
    hide Key;
    var t := Fire(u, s, e).value;
    var ph := s.callers[e.caller];
    assert PhaseInv(u, s, ph);
    if Replaced(u, s.store, ph.next, ph.base.version).Success? {
      WriteReplacesItsBase(u, s, e.caller);
      var id := ph.next.id;
      assert StoredInv(u, s, id);
      var log := s.logs[id];
      VersionsCount(u, id, log, |log| - 1);
      CallExtendsHistory(u, id, log, ph.action, ph.next);
      StoringKeepsLogs(u, s, t, id, log + [Entry(Call(ph.action), ph.next)]);
    }
    OthersKept(u, s, t);
  }

  lemma FireKeepsInv(u: Unicode, s: System, e: Event)
    requires SystemInv(u, s) && Fire(u, s, e).Some?
    ensures SystemInv(u, Fire(u, s, e).value)
  {
    match e
    case Begin(_, _, _, _, _) => BeginKeepsInv(u, s, e);
    case Read(_, _) => ReadKeepsInv(u, s, e);
    case Act(_, _) => ActKeepsInv(u, s, e);
    case Write(_) => WriteKeepsInv(u, s, e);
    case Drop(_) => OthersKept(u, s, Fire(u, s, e).value);
      forall id | id in s.logs
        ensures StoredInv(u, Fire(u, s, e).value, id)
      {
        assert StoredInv(u, s, id);
      }
  }

  /** In every interleaving each stored history is a run of the sequential machine. */
  lemma {:induction false} EveryRunIsLinear(u: Unicode, events: seq<Event>)
    requires Run(u, Start, events).Some?
    ensures SystemInv(u, Run(u, Start, events).value)
  {
    if events != [] {
      var prior := events[..|events| - 1];
      EveryRunIsLinear(u, prior);
      FireKeepsInv(u, Run(u, Start, prior).value, events[|events| - 1]);
    }
  }
}
