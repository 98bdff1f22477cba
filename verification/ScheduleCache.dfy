/**
 The C++ orchestrator's schedule store and the serialized copy that it caches behind a "changed"
 flag. The D-Bus callback is two steps, because it takes its snapshot of the store under one lock
 and serializes later: AddSchedInfo calls may land between the two.
 */
module ScheduleCache {
  import opened Wrappers
  import opened SerialBuffer
  import opened ScheduleWire
  import Runs

  type Id = seq<Byte>

  type Nodes = seq<NodeSchedule>

  /** A uint64_t. */
  type Word = x: nat | x < 0x1_0000_0000_0000_0000

  /** "Apex.OS": this workload bypasses hyperperiod and scheduler. */
  const APEX: Id := [0x41, 0x70, 0x65, 0x78, 0x2E, 0x4F, 0x53]

  /** A callback between its two steps: the copied store and the flag as it was read. */
  datatype Pending = Pending(snapshot: map<Id, Nodes>, changed: bool)

  datatype State = State(
    stored: map<Id, Nodes>,
    changed: bool,
    hyperperiods: map<Id, Word>,
    cached: Option<seq<Byte>>,
    pending: Option<Pending>)

  /** computed is what the hyperperiod calculation stores: nothing for a workload without periods, else
      a 64-bit value that wraps to 0 in unlucky cases. sched is the scheduler's answer, and
      apexNodes the grouping of the request's own node ids. */
  datatype Event =
    | Add(id: Id, computed: Option<Word>, sched: Option<Nodes>, apexNodes: Nodes)
    | Begin
    | Finish

  const START := State(map[], false, map[], None, None)

  // ----- one step

  /** Key of the first stored workload. */
  ghost function First(m: map<Id, Nodes>): (id: Id)
    requires m != map[]
    ensures id in m
  {
    assert exists k :: k in m;
    var k :| k in m;
    k
  }

  /** Dropping the previous workload, its hyperperiod and the validity of the cached bytes. */
  ghost function Cleared(s: State): State
  {
    if s.stored == map[] then s
    else s.(stored := map[], hyperperiods := s.hyperperiods - {First(s.stored)}, changed := true)
  }

  predicate Accepted(e: Event)
    requires e.Add?
  {
    e.id == APEX || (e.computed.Some? && e.computed.value != 0 && e.sched.Some?)
  }

  ghost function AddStep(s: State, e: Event): State
    requires e.Add?
  {
    var c := Cleared(s);
    if e.id == APEX then c.(stored := c.stored[e.id := e.apexNodes]) else
      var h := if e.computed.Some? then c.hyperperiods[e.id := e.computed.value] else c.hyperperiods;
      if Accepted(e) then c.(hyperperiods := h, stored := c.stored[e.id := e.sched.value])
      else c.(hyperperiods := h)
  }

  function BeginStep(s: State): State
  {
    if s.pending.Some? then s
    else s.(pending := Some(Pending(s.stored, s.changed)), changed := false)
  }

  function HyperperiodOf(s: State, id: Id): Word
  {
    if id in s.hyperperiods then s.hyperperiods[id] else 0
  }

  ghost function Serialized(s: State, m: map<Id, Nodes>): seq<Byte>
    requires m != map[]
  {
    Encode(Schedule(First(m), HyperperiodOf(s, First(m)), m[First(m)]))
  }

  /** The cached bytes after the second step of a callback. */
  ghost function Refreshed(s: State, p: Pending): Option<seq<Byte>>
  {
    var kept := if p.changed then None else s.cached;
    if p.snapshot != map[] && kept.None? then Some(Serialized(s, p.snapshot)) else kept
  }

  ghost function FinishStep(s: State): State
  {
    if s.pending.None? then s else s.(cached := Refreshed(s, s.pending.value), pending := None)
  }

  /** What the callback hands out in its second step. */
  ghost function Reply(s: State): Option<seq<Byte>>
    requires s.pending.Some?
  {
    if s.pending.value.snapshot == map[] then None else Refreshed(s, s.pending.value)
  }

  ghost function Step(s: State, e: Event): State
  {
    match e
    case Add(_, _, _, _) => AddStep(s, e)
    case Begin => BeginStep(s)
    case Finish => FinishStep(s)
  }

  ghost function After(evs: seq<Event>): State
  {
    Runs.Reached(Step, START, evs)
  }

  // ----- coherence

  /** A serialization of the store as it is now; nothing when the store is empty. */
  ghost function Fresh(s: State): Option<seq<Byte>>
  {
    if s.stored == map[] then None else Some(Serialized(s, s.stored))
  }

  ghost predicate AtMostOne(m: map<Id, Nodes>)
  {
    forall a, b :: a in m && b in m ==> a == b
  }

  lemma AtMostOneSize(m: map<Id, Nodes>)
    requires AtMostOne(m)
    ensures |m| <= 1
  {
    if m != map[] {
      assert m.Keys == {First(m)};
    }
  }

  ghost predicate StoreInv(s: State)
  {
    && AtMostOne(s.stored)
    && APEX !in s.hyperperiods
    && (forall id :: id in s.stored && id != APEX ==> id in s.hyperperiods && s.hyperperiods[id] > 0)
  }

  /** Bytes that are not marked as outdated are a serialization of the present store, and while the
      flag is clear the snapshot of a callback in progress is the present store. */
  ghost predicate Coherent(s: State)
  {
    && (s.cached.Some? && !s.changed && !(s.pending.Some? && s.pending.value.changed) ==> s.cached == Fresh(s))
    && (s.pending.Some? && s.pending.value.snapshot != map[] && !s.changed ==> s.pending.value.snapshot == s.stored)
    && (s.pending.Some? && s.pending.value.snapshot == map[] && s.cached.Some? ==> s.changed || s.pending.value.changed)
  }

  lemma AddKeepsStore(s: State, e: Event)
    requires e.Add? && StoreInv(s)
    ensures StoreInv(AddStep(s, e))
  {
  }

  lemma AddKeepsCoherence(s: State, e: Event)
    requires e.Add? && Coherent(s)
    ensures Coherent(AddStep(s, e))
  {
  }

  lemma CallbackKeepsInvariants(s: State)
    requires StoreInv(s) && Coherent(s)
    ensures StoreInv(BeginStep(s)) && Coherent(BeginStep(s))
    ensures StoreInv(FinishStep(s)) && Coherent(FinishStep(s))
  {
  }

  lemma {:induction false} RunKeepsInvariants(evs: seq<Event>)
    ensures StoreInv(After(evs)) && Coherent(After(evs))
  {
    if evs != [] {
      var s, e := After(evs[..|evs| - 1]), evs[|evs| - 1];
      RunKeepsInvariants(evs[..|evs| - 1]);
      if e.Add? {
        AddKeepsStore(s, e);
        AddKeepsCoherence(s, e);
      } else {
        CallbackKeepsInvariants(s);
      }
    }
  }

  /** In every reachable state at most one workload is stored; a scheduled one has a positive
      hyperperiod and Apex.OS has none. */
  lemma AtMostOneWorkload(evs: seq<Event>)
    ensures var s := After(evs);
      && |s.stored| <= 1
      && forall id :: id in s.stored ==> (HyperperiodOf(s, id) > 0 <==> id != APEX)
  {
    RunKeepsInvariants(evs);
    AtMostOneSize(After(evs).stored);
  }

  /** Cache coherence: after any history of accepted, rejected and replacing calls and of callbacks
      interrupted by them, a callback that no AddSchedInfo interrupts answers with a fresh
      serialization of the current schedule and hyperperiod, whether or not it came from the cache. */
  lemma UninterruptedReplyIsFresh(evs: seq<Event>)
    requires After(evs).pending.None?
    ensures var s := After(evs);
      BeginStep(s).pending.Some? && Reply(BeginStep(s)) == Fresh(s)
  {
    RunKeepsInvariants(evs);
  }

  /** The latest AddSchedInfo call of a run. */
  function LastCall(evs: seq<Event>): Option<Event>
  {
    if evs == [] then None
    else if evs[|evs| - 1].Add? then Some(evs[|evs| - 1])
    else LastCall(evs[..|evs| - 1])
  }

  /** The nodes that an accepted call brings: the scheduler's for a scheduled workload, the request's own
      grouping for Apex.OS. */
  function NodesOf(e: Event): Nodes
    requires e.Add? && Accepted(e)
  {
    if e.id == APEX then e.apexNodes else e.sched.value
  }

  function HyperperiodIn(e: Event): Word
    requires e.Add? && Accepted(e)
  {
    if e.id == APEX then 0 else e.computed.value
  }

  lemma AddStoresCall(s: State, e: Event)
    requires e.Add? && StoreInv(s)
    ensures var t := AddStep(s, e);
      && t.stored == (if Accepted(e) then map[e.id := NodesOf(e)] else map[])
      && (Accepted(e) ==> HyperperiodOf(t, e.id) == HyperperiodIn(e))
  {
  }

  /** In every run the store is empty if there was no call or the latest one was refused, and otherwise
      holds exactly that call's workload with that call's own nodes and hyperperiod. */
  lemma {:induction false} StoreIsLatestCall(evs: seq<Event>)
    ensures LastCall(evs).None? ==> After(evs).stored == map[]
    ensures LastCall(evs).Some? ==>
      var e, s := LastCall(evs).value, After(evs);
      && e.Add?
      && s.stored == (if Accepted(e) then map[e.id := NodesOf(e)] else map[])
      && (Accepted(e) ==> HyperperiodOf(s, e.id) == HyperperiodIn(e))
  {
    if evs != [] {
      var init, e := evs[..|evs| - 1], evs[|evs| - 1];
      StoreIsLatestCall(init);
      RunKeepsInvariants(init);
      if e.Add? {
        AddStoresCall(After(init), e);
      }
    }
  }

  /** A callback that nothing interrupts answers nothing if the latest call was refused, and otherwise with
      bytes that decode on the node to that call's workload, every task of it in place. */
  lemma UninterruptedReplyDecodesToSchedule(evs: seq<Event>)
    requires After(evs).pending.None? && LastCall(evs).Some?
    requires var e := LastCall(evs).value;
      e.Add? && (Accepted(e) ==> CountBefore(NodesOf(e), |NodesOf(e)|) < 0x8000_0000)
    ensures var e, reply := LastCall(evs).value, Reply(BeginStep(After(evs)));
      if Accepted(e) then
        && reply.Some? && Decode(reply.value).Some?
        && var (r, rest) := Decode(reply.value).value;
           rest == [] && Arrives(r, Schedule(e.id, HyperperiodIn(e), NodesOf(e)))
      else reply.None?
  {
    var s, e := After(evs), LastCall(evs).value;
    StoreIsLatestCall(evs);
    UninterruptedReplyIsFresh(evs);
    if Accepted(e) {
      RunKeepsInvariants(evs);
      SerializedAs(s, s.stored, e.id);
      EveryTaskArrives(Schedule(e.id, HyperperiodIn(e), NodesOf(e)));
    }
  }

  /** An interrupted callback may answer with a mixture: the replaced schedule under hyperperiod 0. */
  lemma InterruptedReplyMayMix(id: Id, h: Word, nodes: Nodes, next: Event)
    requires id != APEX && h > 0 && next.Add? && next.id != id
    ensures var s := After([Add(id, Some(h), Some(nodes), []), Begin, next]);
      && s.pending.Some?
      && Reply(s) == Some(Encode(Schedule(id, 0, nodes)))
  {
    var first := Add(id, Some(h), Some(nodes), []);
    AfterExtends([], first);
    AfterExtends([first], Begin);
    AfterExtends([first, Begin], next);
    var s1 := After([first]);
    assert [] + [first] == [first] && [first] + [Begin] == [first, Begin];
    assert [first, Begin] + [next] == [first, Begin, next];
    assert s1.stored == map[id := nodes] && id in s1.stored;
    assert First(s1.stored) == id;
    var s2 := After([first, Begin]);
    assert s2.cached == None && s2.pending == Some(Pending(s1.stored, false)) && s2.stored == s1.stored;
    var s3 := After([first, Begin, next]);
    AddForgetsPrevious(s2, next);
    assert HyperperiodOf(s3, id) == 0;
  }

  lemma {:induction false} AddsLeaveCallbackAlone(s: State, mid: seq<Event>)
    requires forall i :: 0 <= i < |mid| ==> mid[i].Add?
    ensures var t := Runs.Reached(Step, s, mid); t.pending == s.pending && t.cached == s.cached
  {
    if mid != [] {
      AddsLeaveCallbackAlone(s, mid[..|mid| - 1]);
    }
  }

  /** The call computes a hyperperiod for the workload. */
  predicate Computes(e: Event, id: Id)
    requires e.Add?
  {
    e.id == id && e.computed.Some?
  }

  ghost predicate AllAdds(mid: seq<Event>)
  {
    forall i :: 0 <= i < |mid| ==> mid[i].Add?
  }

  /** Call l is the last one that computes a hyperperiod for the workload, its result is h, and it is kept:
      no call follows, or the workload itself was refused and so is not dropped again. */
  ghost predicate Restores(mid: seq<Event>, l: nat, id: Id, h: Word)
    requires l < |mid| && AllAdds(mid)
  {
    && Computes(mid[l], id) && mid[l].computed.value == h
    && (forall m :: l < m < |mid| ==> !Computes(mid[m], id))
    && (l == |mid| - 1 || !Accepted(mid[l]))
  }

  ghost predicate SomeRestores(mid: seq<Event>, id: Id, h: Word)
    requires AllAdds(mid)
  {
    exists l: nat :: l < |mid| && Restores(mid, l, id, h)
  }

  /** What one call does to the table entry of a workload. */
  lemma EntryAfterAdd(s: State, e: Event, id: Id)
    requires e.Add? && StoreInv(s) && id != APEX
    ensures var t := AddStep(s, e);
      && HyperperiodOf(t, id) ==
           (if Computes(e, id) then e.computed.value else if id in s.stored then 0 else HyperperiodOf(s, id))
      && (id in t.stored <==> e.id == id && Accepted(e))
  {
    if s.stored != map[] {
      assert id in s.stored <==> First(s.stored) == id;
    }
  }

  lemma {:induction false} AddsKeepStore(s: State, mid: seq<Event>)
    requires StoreInv(s) && AllAdds(mid)
    ensures StoreInv(Runs.Reached(Step, s, mid))
  {
    if mid != [] {
      AddsKeepStore(s, mid[..|mid| - 1]);
      AddKeepsStore(Runs.Reached(Step, s, mid[..|mid| - 1]), mid[|mid| - 1]);
    }
  }

  lemma RestoresNext(init: seq<Event>, a: Event, id: Id, h: Word)
    requires AllAdds(init) && a.Add? && id != APEX
    ensures AllAdds(init + [a])
    ensures Computes(a, id) ==> (SomeRestores(init + [a], id, h) <==> a.computed.value == h)
    ensures !Computes(a, id) && (init == [] || (init[|init| - 1].id == id && Accepted(init[|init| - 1]))) ==>
      !SomeRestores(init + [a], id, h)
    ensures !Computes(a, id) && init != [] && !(init[|init| - 1].id == id && Accepted(init[|init| - 1])) ==>
      (SomeRestores(init + [a], id, h) <==> SomeRestores(init, id, h))
  {
    var all := init + [a];
    assert all[|init|] == a && forall i :: 0 <= i < |init| ==> all[i] == init[i];
    if Computes(a, id) && a.computed.value == h {
      assert Restores(all, |init|, id, h);
    }
    if l: nat :| l < |all| && Restores(all, l, id, h) {
      if !Computes(a, id) {
        assert l < |init| && Restores(init, l, id, h);
      }
    }
    if !Computes(a, id) && init != [] && !(init[|init| - 1].id == id && Accepted(init[|init| - 1])) {
      if l: nat :| l < |init| && Restores(init, l, id, h) {
        assert Restores(all, l, id, h);
      }
    }
  }

  /** The hyperperiod that a reply finds after calls in between, in terms of those calls alone. */
  lemma {:induction false} EntryAfterAdds(s: State, mid: seq<Event>, id: Id, h: Word)
    requires StoreInv(s) && id in s.stored && id != APEX && h > 0 && mid != [] && AllAdds(mid)
    ensures HyperperiodOf(Runs.Reached(Step, s, mid), id) == h <==> SomeRestores(mid, id, h)
  {
    var init, a := mid[..|mid| - 1], mid[|mid| - 1];
    assert mid == init + [a];
    var u := Runs.Reached(Step, s, init);
    AddsKeepStore(s, init);
    EntryAfterAdd(u, a, id);
    RestoresNext(init, a, id, h);
    if init != [] {
      EntryAfterAdds(s, init, id, h);
      AddsKeepStore(s, init[..|init| - 1]);
      EntryAfterAdd(Runs.Reached(Step, s, init[..|init| - 1]), init[|init| - 1], id);
    }
  }

  /** What AddSchedInfo calls in the middle of a callback can spoil, exactly: the reply is the
      serialization of the store as it was when the callback began if and only if it came from the
      cache, or there was no call, or the workload is Apex.OS, or the last call that computed the
      workload's hyperperiod found the same value and was the last call or was refused. */
  lemma ReplyMatchesStartExactlyWhen(evs: seq<Event>, mid: seq<Event>, id: Id)
    requires After(evs).pending.None? && id in After(evs).stored && AllAdds(mid)
    ensures var s, t := After(evs), After(evs + [Begin] + mid);
      && t.pending.Some?
      && (Reply(t) == Fresh(s) <==>
            || (s.cached.Some? && !s.changed) || mid == [] || id == APEX
            || SomeRestores(mid, id, HyperperiodOf(s, id)))
  {
    var s, b, t := After(evs), After(evs + [Begin]), After(evs + [Begin] + mid);
    RunKeepsInvariants(evs);
    AfterExtends(evs, Begin);
    Runs.ReachedInParts(Step, START, evs + [Begin], mid);
    AddsLeaveCallbackAlone(b, mid);
    ReplyAgainstStart(s, t, id);
    CallbackKeepsInvariants(s);
    EntryReadByReply(s, b, mid, id);
  }

  lemma EntryReadByReply(s: State, b: State, mid: seq<Event>, id: Id)
    requires StoreInv(s) && id in s.stored && b == BeginStep(s) && AllAdds(mid)
    ensures HyperperiodOf(Runs.Reached(Step, b, mid), id) == HyperperiodOf(s, id) <==>
      mid == [] || id == APEX || SomeRestores(mid, id, HyperperiodOf(s, id))
  {
    AddsKeepStore(b, mid);
    if mid != [] && id != APEX {
      EntryAfterAdds(b, mid, id, HyperperiodOf(s, id));
    }
  }

  lemma SerializedAs(s: State, m: map<Id, Nodes>, id: Id)
    requires AtMostOne(m) && id in m
    ensures Serialized(s, m) == Encode(Schedule(id, HyperperiodOf(s, id), m[id]))
  {
    assert First(m) == id;
  }

  lemma WordFits(h: Word)
    ensures Wrap(h, 8) == h
  {
    WidthLimits();
  }

  lemma ReplyAgainstStart(s: State, t: State, id: Id)
    requires StoreInv(s) && Coherent(s) && s.pending.None? && id in s.stored
    requires t.pending == Some(Pending(s.stored, s.changed)) && t.cached == s.cached
    ensures Reply(t) == Fresh(s) <==>
            (s.cached.Some? && !s.changed) || HyperperiodOf(t, id) == HyperperiodOf(s, id)
  {
    WordFits(HyperperiodOf(t, id));
    WordFits(HyperperiodOf(s, id));
    if s.cached.None? || s.changed {
      SerializedAs(s, s.stored, id);
      SerializedAs(t, s.stored, id);
      HyperperiodShows(id, s.stored[id], HyperperiodOf(t, id), HyperperiodOf(s, id));
    }
  }

  lemma AddForgetsPrevious(s: State, e: Event)
    requires e.Add? && s.stored != map[] && e.id != First(s.stored)
    ensures var t := AddStep(s, e);
      && t.pending == s.pending && t.cached == s.cached && HyperperiodOf(t, First(s.stored)) == 0
  {
  }

  lemma AfterExtends(evs: seq<Event>, e: Event)
    ensures After(evs + [e]) == Step(After(evs), e)
  {
  }

  // ----- the service and the server, updating their fields in place

  class Orchestrator {
    var schedInfoMap: map<Id, Nodes>
    var schedInfoChanged: bool
    var hyperperiodMap: map<Id, Word>
    var schedInfoBuf: Option<seq<Byte>>
    var pending: Option<Pending>

    ghost function Abs(): State
      reads this
    {
      State(schedInfoMap, schedInfoChanged, hyperperiodMap, schedInfoBuf, pending)
    }

    constructor ()
      ensures Abs() == START
    {
      schedInfoMap, schedInfoChanged, hyperperiodMap := map[], false, map[];
      schedInfoBuf, pending := None, None;
    }

    method AddSchedInfo(id: Id, computed: Option<Word>, sched: Option<Nodes>, apexNodes: Nodes) returns (status: int)
      requires StoreInv(Abs())
      modifies this
      ensures Abs() == Step(old(Abs()), Add(id, computed, sched, apexNodes))
      ensures StoreInv(Abs())
      ensures status == if Accepted(Add(id, computed, sched, apexNodes)) then 0 else -1
    {
      if |schedInfoMap| != 0 {
        var previous :| previous in schedInfoMap;
        assert First(schedInfoMap) == previous;
        schedInfoMap := map[];
        hyperperiodMap := hyperperiodMap - {previous};
        schedInfoChanged := true;
      }
      assert Abs() == Cleared(old(Abs()));
      if id == APEX {
        schedInfoMap := schedInfoMap[id := apexNodes];
        return 0;
      }
      if computed.Some? {
        hyperperiodMap := hyperperiodMap[id := computed.value];
      }
      if computed.None? || computed.value == 0 {
        return -1;
      }
      if sched.None? {
        return -1;
      }
      schedInfoMap := schedInfoMap[id := sched.value];
      return 0;
    }

    method BeginSchedInfoCallback()
      requires pending.None?
      modifies this
      ensures Abs() == Step(old(Abs()), Begin)
    {
      pending := Some(Pending(schedInfoMap, schedInfoChanged));
      schedInfoChanged := false;
    }

    method SerializeSchedInfo(snapshot: map<Id, Nodes>) returns (bytes: seq<Byte>)
      requires snapshot != map[] && AtMostOne(snapshot)
      ensures bytes == Serialized(Abs(), snapshot)
    {
      assert First(snapshot) in snapshot;
      var id :| id in snapshot;
      var h := if id in hyperperiodMap then hyperperiodMap[id] else 0;
      var buf := SerializeSchedule(Schedule(id, h, snapshot[id]));
      bytes := buf.data[..buf.pos];
    }

    method FinishSchedInfoCallback() returns (reply: Option<seq<Byte>>)
      requires pending.Some? && AtMostOne(pending.value.snapshot)
      modifies this
      ensures Abs() == Step(old(Abs()), Finish)
      ensures reply == Reply(old(Abs()))
    {
      var snapshot, changed := pending.value.snapshot, pending.value.changed;
      if changed {
        schedInfoBuf := None;
      }
      if snapshot == map[] {
        reply := None;
      } else {
        if schedInfoBuf.None? {
          var bytes := SerializeSchedInfo(snapshot);
          schedInfoBuf := Some(bytes);
        }
        reply := schedInfoBuf;
      }
      pending := None;
    }
  }
}
