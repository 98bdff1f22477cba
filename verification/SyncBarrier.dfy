/**
 The SyncTimer start barrier of the Rust orchestrator, as a step system. Every workload that was
 ever stored is an epoch with its own watch channel; the last epoch is the current workload. One
 critical section, one channel read or one wake-up is one step. Clock readings, timer firings,
 client disconnects and the interleaving are arbitrary.

 Watch channel: sending has no effect while nobody is subscribed; a receiver is woken when the
 version differs from the one it saw, and only then learns that the sender is gone.
 */
module SyncBarrier {
  import opened Wrappers
  import opened Tasks
  import Runs

  type NodeId = string

  const NANOS_PER_SEC: nat := 1_000_000_000
  const START_OFFSET_NS: nat := 1_000_000_000

  datatype BarrierStatus = Waiting | Released(sec: nat, nsec: nat) | Cancelled | TimedOut

  datatype Epoch = Epoch(
    workloadId: string,
    schedule: map<NodeId, seq<SchedTask>>,
    hyperperiodUs: nat,
    synced: set<NodeId>,
    value: BarrierStatus,
    version: nat)

  datatype Outcome = Ack(sec: nat, nsec: nat) | Aborted | DeadlineExceeded | ChannelClosed | Disconnected

  /** Reading: at the top of the wait loop. Selecting: waiting for a change or the timer.
      Expired: the timer won and the handler waits for the store's lock. */
  datatype Phase = Reading | Selecting(seen: nat) | Expired | Done(outcome: Outcome)

  /** A SyncTimer call that checked in; bodies counts how often its loop body was entered. */
  datatype Handler = Handler(node: NodeId, epoch: nat, phase: Phase, bodies: nat)

  datatype State = State(epochs: seq<Epoch>, handlers: seq<Handler>)

  datatype Event =
    | AddSchedInfo(workloadId: string, schedule: map<NodeId, seq<SchedTask>>, hyperperiodUs: nat)
    | SyncTimer(node: NodeId, nowNs: nat)
    | Read(h: nat)
    | Wake(h: nat)
    | Fire(h: nat)
    | Expire(h: nat)
    | Disconnect(h: nat)

  const START := State([], [])

  // ----- one step

  /** The start instant, one second ahead, as seconds and nanoseconds. */
  function StartTime(nowNs: nat): (t: (nat, nat))
    ensures t.1 < 1_000_000_000
    ensures t.0 * 1_000_000_000 + t.1 == nowNs + 1_000_000_000
  {
    ((nowNs + START_OFFSET_NS) / NANOS_PER_SEC, (nowNs + START_OFFSET_NS) % NANOS_PER_SEC)
  }

  function Active(e: Epoch): set<NodeId>
  {
    e.schedule.Keys
  }

  predicate AllSynced(e: Epoch)
  {
    Active(e) <= e.synced
  }

  predicate Live(h: Handler)
  {
    !h.phase.Done?
  }

  predicate HasReceiver(s: State, e: nat)
  {
    exists i :: 0 <= i < |s.handlers| && s.handlers[i].epoch == e && Live(s.handlers[i])
  }

  function Send(s: State, e: nat, v: BarrierStatus): State
    requires e < |s.epochs|
  {
    if HasReceiver(s, e) then
      s.(epochs := s.epochs[e := s.epochs[e].(value := v, version := s.epochs[e].version + 1)])
    else s
  }

  function SetPhase(s: State, h: nat, p: Phase): State
    requires h < |s.handlers|
  {
    s.(handlers := s.handlers[h := s.handlers[h].(phase := p)])
  }

  datatype Refusal = NoWorkload | NoActiveNodes | NotActive

  function Admission(s: State, node: NodeId): Option<Refusal>
  {
    if s.epochs == [] then Some(NoWorkload)
    else if Active(Current(s)) == {} then Some(NoActiveNodes)
    else if node !in Active(Current(s)) then Some(NotActive)
    else None
  }

  function Current(s: State): Epoch
    requires s.epochs != []
  {
    s.epochs[|s.epochs| - 1]
  }

  function NewEpoch(id: string, schedule: map<NodeId, seq<SchedTask>>, hyperperiodUs: nat): Epoch
  {
    Epoch(id, schedule, hyperperiodUs, {}, Waiting, 0)
  }

  function AddStep(s: State, id: string, schedule: map<NodeId, seq<SchedTask>>, hyperperiodUs: nat): State
  {
    var t := if s.epochs == [] then s else Send(s, |s.epochs| - 1, Cancelled);
    t.(epochs := t.epochs + [NewEpoch(id, schedule, hyperperiodUs)])
  }

  /** Subscribe, then record the node. */
  function Registered(s: State, node: NodeId): State
    requires s.epochs != []
  {
    var cur := |s.epochs| - 1;
    State(s.epochs[cur := s.epochs[cur].(synced := s.epochs[cur].synced + {node})],
          s.handlers + [Handler(node, cur, Reading, 0)])
  }

  function CheckInStep(s: State, node: NodeId, nowNs: nat): State
  {
    if Admission(s, node).Some? then s else
      var t := Registered(s, node);
      if AllSynced(Current(t)) then Send(t, |t.epochs| - 1, ReleaseAt(nowNs)) else t
  }

  function ReleaseAt(nowNs: nat): BarrierStatus
  {
    Released(StartTime(nowNs).0, StartTime(nowNs).1)
  }

  function AfterRead(e: Epoch): Phase
  {
    match e.value
    case Released(sec, nsec) => Done(Ack(sec, nsec))
    case Cancelled => Done(Aborted)
    case TimedOut => Done(DeadlineExceeded)
    case Waiting => Selecting(e.version)
  }

  /** The handler's own next phase; a step that is not enabled changes nothing. */
  function HandlerStep(s: State, e: Event): State
    requires !e.AddSchedInfo? && !e.SyncTimer?
  {
    if e.h >= |s.handlers| || s.handlers[e.h].epoch >= |s.epochs| then s else
      var h := s.handlers[e.h];
      var ep := s.epochs[h.epoch];
      match e
      case Read(_) =>
        if h.phase != Reading then s
        else s.(handlers := s.handlers[e.h := h.(phase := AfterRead(ep), bodies := h.bodies + 1)])
      case Wake(_) =>
        if !h.phase.Selecting? then s
        else if ep.version != h.phase.seen then SetPhase(s, e.h, Reading)
        else if h.epoch < |s.epochs| - 1 then SetPhase(s, e.h, Done(ChannelClosed))
        else s
      case Fire(_) => if h.phase.Selecting? then SetPhase(s, e.h, Expired) else s
      case Expire(_) =>
        if h.phase != Expired then s
        else SetPhase(Send(s, |s.epochs| - 1, TimedOut), e.h, Done(DeadlineExceeded))
      case Disconnect(_) => if Live(h) then SetPhase(s, e.h, Done(Disconnected)) else s
  }

  function Step(s: State, e: Event): State
  {
    match e
    case AddSchedInfo(id, schedule, hyperperiodUs) => AddStep(s, id, schedule, hyperperiodUs)
    case SyncTimer(node, nowNs) => CheckInStep(s, node, nowNs)
    case _ => HandlerStep(s, e)
  }

  function After(evs: seq<Event>): State
  {
    Runs.Reached(Step, START, evs)
  }

  // ----- what every step keeps

  ghost predicate EpochInv(e: Epoch)
  {
    && e.synced <= Active(e)
    && (e.version == 0 <==> e.value == Waiting)
    && (e.value.Released? ==> AllSynced(e))
  }

  /** last says whether the handler's epoch is the current one. */
  ghost predicate HandlerInv(h: Handler, e: Epoch, last: bool)
  {
    && h.node in Active(e)
    && (!last && Live(h) ==> e.value == Cancelled)
    && (h.phase.Selecting? ==> h.phase.seen == 0 && h.bodies == 1)
    && (h.phase.Reading? ==> h.bodies == 0 || (h.bodies == 1 && e.version > 0))
    && (h.phase.Expired? ==> h.bodies == 1)
    && h.bodies <= 2
    && (h.phase.Done? ==> h.phase.outcome != ChannelClosed)
    && (h.phase.Done? && h.phase.outcome.Ack? ==> AllSynced(e))
    && (h.phase.Done? && h.phase.outcome.Aborted? ==> !last)
  }

  ghost predicate Inv(s: State)
  {
    && (forall e :: 0 <= e < |s.epochs| ==> EpochInv(s.epochs[e]))
    && (s.epochs != [] ==> Current(s).value != Cancelled)
    && (forall i :: 0 <= i < |s.handlers| ==> s.handlers[i].epoch < |s.epochs|)
    && (forall i :: 0 <= i < |s.handlers| ==>
          HandlerInv(s.handlers[i], s.epochs[s.handlers[i].epoch], s.handlers[i].epoch == |s.epochs| - 1))
  }

  /** Sending anything but Waiting to the current epoch keeps everything; a release needs a full set. */
  lemma SendKeepsInv(s: State, v: BarrierStatus)
    requires Inv(s) && s.epochs != [] && v != Waiting && v != Cancelled
    requires v.Released? ==> AllSynced(Current(s))
    ensures Inv(Send(s, |s.epochs| - 1, v))
  {
  }

  lemma AddKeepsInv(s: State, id: string, schedule: map<NodeId, seq<SchedTask>>, hyperperiodUs: nat)
    requires Inv(s)
    ensures Inv(AddStep(s, id, schedule, hyperperiodUs))
  {
    var t := AddStep(s, id, schedule, hyperperiodUs);
    forall i | 0 <= i < |t.handlers|
      ensures HandlerInv(t.handlers[i], t.epochs[t.handlers[i].epoch], t.handlers[i].epoch == |t.epochs| - 1)
    {
      var h := s.handlers[i];
      if h.epoch == |s.epochs| - 1 && Live(h) {
        assert HasReceiver(s, |s.epochs| - 1);
      }
    }
  }

  lemma RegisterKeepsInv(s: State, node: NodeId)
    requires Inv(s) && Admission(s, node).None?
    ensures Inv(Registered(s, node))
  {
  }

  lemma PhaseKeepsInv(s: State, h: nat, p: Phase, bodies: nat)
    requires Inv(s) && h < |s.handlers|
    requires HandlerInv(s.handlers[h].(phase := p, bodies := bodies), s.epochs[s.handlers[h].epoch],
                        s.handlers[h].epoch == |s.epochs| - 1)
    ensures Inv(s.(handlers := s.handlers[h := s.handlers[h].(phase := p, bodies := bodies)]))
  {
  }

  lemma ReadKeepsInv(s: State, h: nat)
    requires Inv(s) && h < |s.handlers| && s.handlers[h].phase == Reading
    ensures var x := s.handlers[h];
      Inv(s.(handlers := s.handlers[h := x.(phase := AfterRead(s.epochs[x.epoch]), bodies := x.bodies + 1)]))
  {
    PhaseKeepsInv(s, h, AfterRead(s.epochs[s.handlers[h].epoch]), s.handlers[h].bodies + 1);
  }

  lemma ExpireKeepsInv(s: State, h: nat)
    requires Inv(s) && h < |s.handlers| && s.handlers[h].phase == Expired
    ensures Inv(SetPhase(Send(s, |s.epochs| - 1, TimedOut), h, Done(DeadlineExceeded)))
  {
    SendKeepsInv(s, TimedOut);
    PhaseKeepsInv(Send(s, |s.epochs| - 1, TimedOut), h, Done(DeadlineExceeded), s.handlers[h].bodies);
  }

  lemma HandlerStepKeepsInv(s: State, e: Event)
    requires Inv(s) && !e.AddSchedInfo? && !e.SyncTimer?
    ensures Inv(HandlerStep(s, e))
  {
    if e.h < |s.handlers| {
      var h := s.handlers[e.h];
      var ep := s.epochs[h.epoch];
      if e.Read? && h.phase == Reading {
        ReadKeepsInv(s, e.h);
      } else if e.Expire? && h.phase == Expired {
        ExpireKeepsInv(s, e.h);
      } else if e.Wake? && h.phase.Selecting? && ep.version != h.phase.seen {
        PhaseKeepsInv(s, e.h, Reading, h.bodies);
      } else if e.Fire? && h.phase.Selecting? {
        PhaseKeepsInv(s, e.h, Expired, h.bodies);
      } else if e.Disconnect? && Live(h) {
        PhaseKeepsInv(s, e.h, Done(Disconnected), h.bodies);
      }
    }
  }

  lemma StepKeepsInv(s: State, e: Event)
    requires Inv(s)
    ensures Inv(Step(s, e))
  {
    match e
    case AddSchedInfo(id, schedule, hyperperiodUs) => AddKeepsInv(s, id, schedule, hyperperiodUs);
    case SyncTimer(node, nowNs) =>
      if Admission(s, node).None? {
        RegisterKeepsInv(s, node);
        var t := Registered(s, node);
        if AllSynced(Current(t)) {
          SendKeepsInv(t, ReleaseAt(nowNs));
        }
      }
    case _ => HandlerStepKeepsInv(s, e);
  }

  lemma {:induction false} ReachableInv(evs: seq<Event>)
    ensures Inv(After(evs))
  {
    if evs != [] {
      ReachableInv(evs[..|evs| - 1]);
      StepKeepsInv(After(evs[..|evs| - 1]), evs[|evs| - 1]);
    }
  }

  lemma AfterExtends(evs: seq<Event>, e: Event)
    ensures After(evs + [e]) == Step(After(evs), e)
  {
  }

  /** The state after further events. */
  function RunFrom(s: State, evs: seq<Event>): State
  {
    Runs.Reached(Step, s, evs)
  }

  lemma AfterAppend(evs: seq<Event>, more: seq<Event>)
    ensures After(evs + more) == RunFrom(After(evs), more)
  {
    Runs.ReachedInParts(Step, START, evs, more);
  }

  lemma RunOne(s: State, e: Event)
    ensures RunFrom(s, [e]) == Step(s, e)
  {
    assert [] + [e] == [e];
    Runs.ReachedNext(Step, s, [], e);
  }

  lemma RunTwo(s: State, e: Event, f: Event)
    ensures RunFrom(s, [e, f]) == Step(Step(s, e), f)
  {
    assert [e] + [f] == [e, f];
    Runs.ReachedNext(Step, s, [e], f);
    RunOne(s, e);
  }

  /** The latest workload that the run stored. */
  function LastStored(evs: seq<Event>): Option<Event>
  {
    if evs == [] then None
    else if evs[|evs| - 1].AddSchedInfo? then Some(evs[|evs| - 1])
    else LastStored(evs[..|evs| - 1])
  }

  lemma StepKeepsCurrent(s: State, ev: Event)
    requires !ev.AddSchedInfo?
    ensures var t := Step(s, ev);
      && |t.epochs| == |s.epochs|
      && (s.epochs != [] ==>
            && Current(t).workloadId == Current(s).workloadId && Current(t).schedule == Current(s).schedule
            && Current(t).hyperperiodUs == Current(s).hyperperiodUs)
  {
  }

  /** In every run the current workload is the one stored last. */
  lemma {:induction false} CurrentIsLastStored(evs: seq<Event>)
    ensures After(evs).epochs == [] <==> LastStored(evs).None?
    ensures LastStored(evs).Some? ==> LastStored(evs).value.AddSchedInfo?
    ensures LastStored(evs).Some? ==>
      var a, cur := LastStored(evs).value, Current(After(evs));
      && cur.workloadId == a.workloadId && cur.schedule == a.schedule && cur.hyperperiodUs == a.hyperperiodUs
  {
    if evs != [] {
      CurrentIsLastStored(evs[..|evs| - 1]);
      if !evs[|evs| - 1].AddSchedInfo? {
        StepKeepsCurrent(After(evs[..|evs| - 1]), evs[|evs| - 1]);
      }
    }
  }

  // ----- what the run so far says about an epoch

  /** The step is a successful check-in for epoch e. */
  predicate ChecksIn(s: State, ev: Event, e: nat)
  {
    ev.SyncTimer? && Admission(s, ev.node).None? && e == |s.epochs| - 1
  }

  /** The step broadcasts a start time in epoch e. */
  predicate Broadcasts(s: State, ev: Event, e: nat)
  {
    ChecksIn(s, ev, e) && AllSynced(Current(Registered(s, ev.node)))
  }

  /** The step is the end of a timed-out handler, of whatever epoch, while e is current. */
  predicate ExpiresNow(s: State, ev: Event, e: nat)
  {
    ev.Expire? && ev.h < |s.handlers| && s.handlers[ev.h].phase == Expired && e == |s.epochs| - 1
  }

  /** The nodes that checked in for epoch e, in order and with repetitions. */
  function CheckIns(evs: seq<Event>, e: nat): seq<NodeId>
  {
    if evs == [] then [] else
      var init, ev := evs[..|evs| - 1], evs[|evs| - 1];
      CheckIns(init, e) + if ChecksIn(After(init), ev, e) then [ev.node] else []
  }

  /** The start times broadcast in epoch e, in order. */
  function StartTimes(evs: seq<Event>, e: nat): seq<(nat, nat)>
  {
    if evs == [] then [] else
      var init, ev := evs[..|evs| - 1], evs[|evs| - 1];
      StartTimes(init, e) + if Broadcasts(After(init), ev, e) then [StartTime(ev.nowNs)] else []
  }

  /** Check-ins for epoch e that arrived when every active node had already checked in. */
  function LateCheckIns(evs: seq<Event>, e: nat): nat
  {
    if evs == [] then 0 else
      var init, ev := evs[..|evs| - 1], evs[|evs| - 1];
      LateCheckIns(init, e) + if ChecksIn(After(init), ev, e) && AllSynced(Current(After(init))) then 1 else 0
  }

  ghost predicate CheckedIn(evs: seq<Event>, e: nat, n: NodeId)
  {
    exists i :: 0 <= i < |evs| && ChecksIn(After(evs[..i]), evs[i], e) && evs[i].node == n
  }

  /** Steps leave past epochs and all schedules alone, change the recorded set only by a check-in,
      never go back to Waiting, and release only by a broadcast. */
  ghost predicate Evolves(s: State, ev: Event, e: nat, before: Epoch, after: Epoch)
  {
    && after.schedule == before.schedule && after.hyperperiodUs == before.hyperperiodUs
    && after.workloadId == before.workloadId
    && after.synced == before.synced + (if ChecksIn(s, ev, e) then {ev.node} else {})
    && (after.value.Released? ==>
          after.value == before.value || (Broadcasts(s, ev, e) && after.value == ReleaseAt(ev.nowNs)))
    && (Broadcasts(s, ev, e) ==> after.value == ReleaseAt(ev.nowNs))
    && (after.value == TimedOut ==> before.value == TimedOut || ExpiresNow(s, ev, e))
    && (after.value != before.value ==> Broadcasts(s, ev, e) || ExpiresNow(s, ev, e) || ev.AddSchedInfo?)
    && (e < |s.epochs| - 1 ==> after == before)
    && (before.value != Waiting ==> after.value != Waiting)
  }

  lemma EpochAfterStep(s: State, ev: Event, e: nat)
    requires Inv(s) && e < |s.epochs|
    ensures |s.epochs| <= |Step(s, ev).epochs| && Evolves(s, ev, e, s.epochs[e], Step(s, ev).epochs[e])
  {
    if ev.SyncTimer? {
      EpochAfterCheckIn(s, ev, e);
    } else if !ev.AddSchedInfo? {
      EpochAfterHandlerStep(s, ev, e);
    }
  }

  lemma EpochAfterCheckIn(s: State, ev: Event, e: nat)
    requires ev.SyncTimer? && e < |s.epochs|
    ensures var t := CheckInStep(s, ev.node, ev.nowNs);
      |s.epochs| == |t.epochs| && Evolves(s, ev, e, s.epochs[e], t.epochs[e])
  {
    if Admission(s, ev.node).None? {
      RegisteredIsSubscribed(s, ev.node);
    }
  }

  lemma EpochAfterHandlerStep(s: State, ev: Event, e: nat)
    requires !ev.AddSchedInfo? && !ev.SyncTimer? && e < |s.epochs|
    ensures var t := HandlerStep(s, ev);
      |s.epochs| == |t.epochs| && Evolves(s, ev, e, s.epochs[e], t.epochs[e])
  {
  }

  lemma RegisteredIsSubscribed(s: State, node: NodeId)
    requires s.epochs != []
    ensures HasReceiver(Registered(s, node), |s.epochs| - 1)
  {
    assert Live(Registered(s, node).handlers[|s.handlers|]);
  }

  /** An epoch that a step creates is fresh, and nobody has checked in for it. */
  lemma EpochCreated(s: State, ev: Event, e: nat)
    requires Inv(s) && |s.epochs| <= e < |Step(s, ev).epochs|
    ensures var x := Step(s, ev).epochs[e]; x.synced == {} && x.value == Waiting
    ensures !ChecksIn(s, ev, e)
  {
  }

  /** The recorded set is the set of nodes that checked in, a released value is the latest broadcast, and
      the broadcasts are the completing check-in plus the late ones. */
  ghost predicate History(checkIns: seq<NodeId>, starts: seq<(nat, nat)>, late: nat, ep: Epoch)
  {
    && (forall n :: n in ep.synced <==> n in checkIns)
    && (ep.value.Released? ==> starts != [] && starts[|starts| - 1] == (ep.value.sec, ep.value.nsec))
    && |starts| == (if Active(ep) != {} && AllSynced(ep) then 1 + late else 0)
    && (late > 0 ==> AllSynced(ep))
    && |ep.synced| + late <= |checkIns|
  }

  ghost predicate EpochHistory(evs: seq<Event>, e: nat, ep: Epoch)
  {
    History(CheckIns(evs, e), StartTimes(evs, e), LateCheckIns(evs, e), ep)
  }

  /** One more check-in by an active node, late or completing or neither. */
  lemma HistoryWithCheckIn(checkIns: seq<NodeId>, starts: seq<(nat, nat)>, late: nat, before: Epoch,
                           after: Epoch, node: NodeId, time: (nat, nat))
    requires History(checkIns, starts, late, before)
    requires node in Active(before) && before.synced <= Active(before)
    requires after.schedule == before.schedule && after.synced == before.synced + {node}
    requires if AllSynced(after) then after.value == Released(time.0, time.1)
             else after.value.Released? ==> after.value == before.value
    ensures History(checkIns + [node], starts + (if AllSynced(after) then [time] else []),
                    late + (if AllSynced(before) then 1 else 0), after)
  {
    if node in before.synced {
      assert after.synced == before.synced;
    } else {
      assert |after.synced| == |before.synced| + 1;
      assert !AllSynced(before);
    }
  }

  lemma {:induction false} NothingBeforeCreation(evs: seq<Event>, e: nat)
    requires |After(evs).epochs| <= e
    ensures CheckIns(evs, e) == [] && StartTimes(evs, e) == [] && LateCheckIns(evs, e) == 0
  {
    if evs != [] {
      var init, ev := evs[..|evs| - 1], evs[|evs| - 1];
      NothingBeforeCreation(init, e);
    }
  }

  lemma ListsExtend(evs: seq<Event>, ev: Event, e: nat)
    ensures var s, all := After(evs), evs + [ev];
      && CheckIns(all, e) == CheckIns(evs, e) + (if ChecksIn(s, ev, e) then [ev.node] else [])
      && StartTimes(all, e) == StartTimes(evs, e) + (if Broadcasts(s, ev, e) then [StartTime(ev.nowNs)] else [])
      && LateCheckIns(all, e) == LateCheckIns(evs, e) + (if ChecksIn(s, ev, e) && AllSynced(Current(s)) then 1 else 0)
  {
  }

  /** A step that is no check-in for the epoch adds nothing to its lists. */
  lemma HistoryWithoutCheckIn(checkIns: seq<NodeId>, starts: seq<(nat, nat)>, late: nat, before: Epoch, after: Epoch)
    requires History(checkIns, starts, late, before)
    requires after.schedule == before.schedule && after.synced == before.synced
    requires after.value.Released? ==> after.value == before.value
    ensures History(checkIns, starts, late, after)
  {
  }

  lemma HistoryStep(checkIns: seq<NodeId>, starts: seq<(nat, nat)>, late: nat,
                    s: State, ev: Event, e: nat, before: Epoch, after: Epoch)
    requires e < |s.epochs| && before == s.epochs[e] && before.synced <= Active(before)
    requires History(checkIns, starts, late, before) && Evolves(s, ev, e, before, after)
    ensures History(checkIns + (if ChecksIn(s, ev, e) then [ev.node] else []),
                    starts + (if Broadcasts(s, ev, e) then [StartTime(ev.nowNs)] else []),
                    late + (if ChecksIn(s, ev, e) && AllSynced(Current(s)) then 1 else 0), after)
  {
    if ChecksIn(s, ev, e) {
      assert Broadcasts(s, ev, e) <==> AllSynced(after);
      HistoryWithCheckIn(checkIns, starts, late, before, after, ev.node, StartTime(ev.nowNs));
    } else {
      assert after.synced == before.synced && checkIns + [] == checkIns && starts + [] == starts;
      HistoryWithoutCheckIn(checkIns, starts, late, before, after);
    }
  }

  lemma {:induction false} ReachableHistory(evs: seq<Event>, e: nat)
    requires e < |After(evs).epochs|
    ensures EpochHistory(evs, e, After(evs).epochs[e])
  {
    var init, ev := evs[..|evs| - 1], evs[|evs| - 1];
    assert evs == init + [ev];
    ReachableInv(init);
    var s := After(init);
    if e < |s.epochs| {
      ReachableHistory(init, e);
      EpochAfterStep(s, ev, e);
      ListsExtend(init, ev, e);
      HistoryStep(CheckIns(init, e), StartTimes(init, e), LateCheckIns(init, e), s, ev, e,
                  s.epochs[e], After(evs).epochs[e]);
    } else {
      EpochCreated(s, ev, e);
      NothingBeforeCreation(init, e);
    }
  }

  // ----- safety

  lemma {:induction false} CheckInsHappened(evs: seq<Event>, e: nat, n: NodeId)
    requires n in CheckIns(evs, e)
    ensures CheckedIn(evs, e, n)
  {
    var init, ev := evs[..|evs| - 1], evs[|evs| - 1];
    if n in CheckIns(init, e) {
      CheckInsHappened(init, e, n);
      CheckedInLater(init, ev, e, n);
      assert evs == init + [ev];
    }
  }

  lemma CheckedInLater(evs: seq<Event>, ev: Event, e: nat, n: NodeId)
    requires CheckedIn(evs, e, n)
    ensures CheckedIn(evs + [ev], e, n)
  {
    var i :| 0 <= i < |evs| && ChecksIn(After(evs[..i]), evs[i], e) && evs[i].node == n;
    assert (evs + [ev])[..i] == evs[..i] && (evs + [ev])[i] == evs[i];
  }

  /** Barrier safety: in every interleaving, an acknowledged call means that every node holding
      tasks in the workload it subscribed to has checked in for that same workload. */
  lemma AckOnlyAfterAllCheckedIn(evs: seq<Event>, h: nat)
    requires h < |After(evs).handlers|
    requires After(evs).handlers[h].phase.Done? && After(evs).handlers[h].phase.outcome.Ack?
    ensures var e := After(evs).handlers[h].epoch;
      && e < |After(evs).epochs|
      && forall n :: n in After(evs).epochs[e].schedule ==> CheckedIn(evs, e, n)
  {
    ReachableInv(evs);
    var e := After(evs).handlers[h].epoch;
    ReachableHistory(evs, e);
    forall n | n in After(evs).epochs[e].schedule ensures CheckedIn(evs, e, n) {
      CheckInsHappened(evs, e, n);
    }
  }

  lemma HandlerAfterStep(s: State, ev: Event, h: nat)
    requires Inv(s) && h < |s.handlers|
    ensures var t := Step(s, ev);
      && |s.handlers| <= |t.handlers|
      && t.handlers[h].node == s.handlers[h].node && t.handlers[h].epoch == s.handlers[h].epoch
      && (s.handlers[h].phase.Done? ==> t.handlers[h] == s.handlers[h])
      && (Live(s.handlers[h]) && t.handlers[h].phase.Done? && t.handlers[h].phase.outcome.Ack? ==>
            t.epochs == s.epochs && s.epochs[s.handlers[h].epoch].value ==
              Released(t.handlers[h].phase.outcome.sec, t.handlers[h].phase.outcome.nsec))
  {
  }

  lemma NewHandlerIsLive(s: State, ev: Event, h: nat)
    requires |s.handlers| <= h < |Step(s, ev).handlers|
    ensures Live(Step(s, ev).handlers[h])
  {
  }

  lemma StartTimesGrow(evs: seq<Event>, ev: Event, e: nat)
    ensures StartTimes(evs, e) <= StartTimes(evs + [ev], e)
  {
    ListsExtend(evs, ev, e);
  }

  /** Event i is the read with which a call of epoch e is acknowledged. */
  predicate AcksAt(evs: seq<Event>, i: nat, e: nat)
    requires i < |evs|
  {
    var s := After(evs[..i]);
    && evs[i].Read? && evs[i].h < |s.handlers| && s.handlers[evs[i].h].phase == Reading
    && s.handlers[evs[i].h].epoch == e < |s.epochs| && s.epochs[e].value.Released?
  }

  /** The latest start time broadcast in epoch e, if there is one. */
  function LatestStart(evs: seq<Event>, e: nat): Option<(nat, nat)>
  {
    var starts := StartTimes(evs, e);
    if starts == [] then None else Some(starts[|starts| - 1])
  }

  ghost predicate AckedBy(evs: seq<Event>, i: nat, h: nat, e: nat, t: (nat, nat))
  {
    i < |evs| && AcksAt(evs, i, e) && evs[i].h == h && LatestStart(evs[..i], e) == Some(t)
  }

  lemma AckedByLater(evs: seq<Event>, ev: Event, i: nat, h: nat, e: nat, t: (nat, nat))
    requires AckedBy(evs, i, h, e, t)
    ensures AckedBy(evs + [ev], i, h, e, t)
  {
    assert (evs + [ev])[..i] == evs[..i] && (evs + [ev])[i] == evs[i];
  }

  /** The step that acknowledges a call is a read of the released barrier. */
  lemma AckStep(s: State, ev: Event, h: nat, t: (nat, nat))
    requires Inv(s) && h < |s.handlers| && Live(s.handlers[h])
    requires h < |Step(s, ev).handlers| && Step(s, ev).handlers[h].phase == Done(Ack(t.0, t.1))
    ensures ev == Read(h) && s.handlers[h].phase == Reading
    ensures s.epochs[s.handlers[h].epoch].value == Released(t.0, t.1)
  {
  }

  /** An acknowledged call was acknowledged by a read of its own, with the start time broadcast last in
      its own epoch before that read. */
  lemma {:induction false} AckHappened(evs: seq<Event>, h: nat, e: nat, t: (nat, nat)) returns (i: nat)
    requires AckedIn(After(evs), h, e, t)
    ensures AckedBy(evs, i, h, e, t)
  {
    var init, ev := evs[..|evs| - 1], evs[|evs| - 1];
    assert evs == init + [ev];
    ReachableInv(init);
    var s := After(init);
    if h >= |s.handlers| {
      NewHandlerIsLive(s, ev, h);
    } else {
      HandlerAfterStep(s, ev, h);
    }
    if Live(s.handlers[h]) {
      i := |init|;
      AckStep(s, ev, h, t);
      ReachableHistory(init, e);
    } else {
      i := AckHappened(init, h, e, t);
      AckedByLater(init, ev, i, h, e, t);
    }
  }

  lemma ReadReleased(s: State, h: nat)
    requires h < |s.handlers| && s.handlers[h].phase == Reading && s.handlers[h].epoch < |s.epochs|
    requires s.epochs[s.handlers[h].epoch].value.Released?
    ensures var v := s.epochs[s.handlers[h].epoch].value;
      AckedIn(Step(s, Read(h)), h, s.handlers[h].epoch, (v.sec, v.nsec))
  {
  }

  lemma ReleasedIsLatest(evs: seq<Event>, e: nat)
    requires e < |After(evs).epochs| && After(evs).epochs[e].value.Released?
    ensures LatestStart(evs, e) == Some((After(evs).epochs[e].value.sec, After(evs).epochs[e].value.nsec))
  {
    ReachableHistory(evs, e);
  }

  lemma {:induction false} ReadAcks(evs: seq<Event>, i: nat, e: nat)
    requires i < |evs| && AcksAt(evs, i, e)
    ensures LatestStart(evs[..i], e).Some?
    ensures AckedIn(Step(After(evs[..i]), evs[i]), evs[i].h, e, LatestStart(evs[..i], e).value)
  {
    ReadReleased(After(evs[..i]), evs[i].h);
    ReleasedIsLatest(evs[..i], e);
  }

  /** Such a read acknowledges its call for good. */
  lemma {:induction false} AckStays(evs: seq<Event>, i: nat, e: nat)
    requires i < |evs| && AcksAt(evs, i, e)
    ensures LatestStart(evs[..i], e).Some?
    ensures AckedIn(After(evs), evs[i].h, e, LatestStart(evs[..i], e).value)
  {
    var init, ev := evs[..|evs| - 1], evs[|evs| - 1];
    assert evs == init + [ev];
    ReachableInv(init);
    if i == |init| {
      ReadAcks(evs, i, e);
    } else {
      assert init[..i] == evs[..i];
      AckStays(init, i, e);
      HandlerAfterStep(After(init), ev, evs[i].h);
    }
  }

  // ----- agreement on the start time

  ghost predicate NoRepeats(xs: seq<NodeId>)
  {
    forall i, j :: 0 <= i < j < |xs| ==> xs[i] != xs[j]
  }

  lemma {:induction false} NoRepeatsFits(xs: seq<NodeId>, all: set<NodeId>)
    requires NoRepeats(xs) && forall x :: x in xs ==> x in all
    ensures |xs| <= |all|
  {
    if xs != [] {
      var init, x := xs[..|xs| - 1], xs[|xs| - 1];
      NoRepeatsFits(init, all - {x});
    }
  }

  /** Exactly the check-ins that find or make the set of active nodes complete are broadcasts: one
      completing check-in and then every late one. */
  lemma BroadcastsAreCompletionPlusLate(evs: seq<Event>, e: nat)
    requires e < |After(evs).epochs|
    ensures var ep := After(evs).epochs[e];
      |StartTimes(evs, e)| == if Active(ep) != {} && AllSynced(ep) then 1 + LateCheckIns(evs, e) else 0
  {
    ReachableHistory(evs, e);
  }

  /** The number of broadcasts is at most max(0, check-ins - (active nodes - 1)). */
  lemma BroadcastBound(evs: seq<Event>, e: nat)
    requires e < |After(evs).epochs|
    ensures var bound := |CheckIns(evs, e)| - (|Active(After(evs).epochs[e])| - 1);
      |StartTimes(evs, e)| <= if bound < 0 then 0 else bound
  {
    ReachableInv(evs);
    ReachableHistory(evs, e);
    var ep := After(evs).epochs[e];
    if AllSynced(ep) {
      assert ep.synced == Active(ep);
    }
  }

  ghost predicate AckedIn(s: State, h: nat, e: nat, t: (nat, nat))
  {
    h < |s.handlers| && s.handlers[h].epoch == e && s.handlers[h].phase == Done(Ack(t.0, t.1))
  }

  ghost predicate AcksAgree(s: State, e: nat)
  {
    forall g, t, h, u :: AckedIn(s, g, e, t) && AckedIn(s, h, e, u) ==> t == u
  }

  /** Any two reads that acknowledge a call of epoch e find the same latest start time. */
  ghost predicate ReadsFindOneStart(evs: seq<Event>, e: nat)
  {
    forall i, j :: 0 <= i < |evs| && 0 <= j < |evs| && AcksAt(evs, i, e) && AcksAt(evs, j, e) ==>
      LatestStart(evs[..i], e) == LatestStart(evs[..j], e)
  }

  /** Agreement, exactly: all calls acknowledged in an epoch carry the same start time if and only if no
      two of the acknowledging reads are separated by late check-ins that change the latest start time. */
  lemma AcksAgreeExactlyWhen(evs: seq<Event>, e: nat)
    ensures AcksAgree(After(evs), e) <==> ReadsFindOneStart(evs, e)
  {
    if ReadsFindOneStart(evs, e) {
      forall g, t, h, u | AckedIn(After(evs), g, e, t) && AckedIn(After(evs), h, e, u) ensures t == u {
        var i := AckHappened(evs, g, e, t);
        var j := AckHappened(evs, h, e, u);
      }
    }
    if AcksAgree(After(evs), e) {
      forall i, j | 0 <= i < |evs| && 0 <= j < |evs| && AcksAt(evs, i, e) && AcksAt(evs, j, e)
        ensures LatestStart(evs[..i], e) == LatestStart(evs[..j], e)
      {
        AckStays(evs, i, e);
        AckStays(evs, j, e);
      }
    }
  }

  lemma {:induction false} PrefixStarts(evs: seq<Event>, i: nat, e: nat)
    requires i <= |evs|
    ensures StartTimes(evs[..i], e) <= StartTimes(evs, e)
  {
    if i == |evs| {
      assert evs[..i] == evs;
    } else {
      var init := evs[..|evs| - 1];
      assert init[..i] == evs[..i] && evs == init + [evs[|evs| - 1]];
      PrefixStarts(init, i, e);
      StartTimesGrow(init, evs[|evs| - 1], e);
    }
  }

  /** In particular all acknowledgements agree as long as no check-in comes after the set was complete,
      whatever timeouts, repetitions and disconnects happen. */
  lemma {:induction false} AcksAgreeWithoutLateCheckIns(evs: seq<Event>, e: nat)
    requires LateCheckIns(evs, e) == 0
    ensures AcksAgree(After(evs), e)
  {
    AtMostOneStart(evs, e);
    forall i, j | 0 <= i < |evs| && 0 <= j < |evs| && AcksAt(evs, i, e) && AcksAt(evs, j, e)
      ensures LatestStart(evs[..i], e) == LatestStart(evs[..j], e)
    {
      AckSeesStart(evs, i, e);
      AckSeesStart(evs, j, e);
      LatestOfOne(evs, i, e);
      LatestOfOne(evs, j, e);
    }
    AcksAgreeExactlyWhen(evs, e);
  }

  lemma AtMostOneStart(evs: seq<Event>, e: nat)
    requires LateCheckIns(evs, e) == 0
    ensures |StartTimes(evs, e)| <= 1
  {
    if e < |After(evs).epochs| {
      BroadcastsAreCompletionPlusLate(evs, e);
    } else {
      NothingBeforeCreation(evs, e);
    }
  }

  lemma {:induction false} LatestOfOne(evs: seq<Event>, i: nat, e: nat)
    requires i < |evs| && StartTimes(evs[..i], e) != [] && |StartTimes(evs, e)| <= 1
    ensures LatestStart(evs[..i], e) == LatestStart(evs, e)
  {
    PrefixStarts(evs, i, e);
    OnlyElement(StartTimes(evs[..i], e), StartTimes(evs, e));
  }

  lemma {:induction false} AckSeesStart(evs: seq<Event>, i: nat, e: nat)
    requires i < |evs| && AcksAt(evs, i, e)
    ensures StartTimes(evs[..i], e) != []
  {
    ReadAcks(evs, i, e);
  }

  lemma OnlyElement(a: seq<(nat, nat)>, b: seq<(nat, nat)>)
    requires a != [] && a <= b && |b| <= 1
    ensures a == b
  {
  }

  /** And if no node repeats its check-in for that epoch. */
  lemma SingleCheckInsAgree(evs: seq<Event>, e: nat)
    requires NoRepeats(CheckIns(evs, e))
    ensures AcksAgree(After(evs), e)
  {
    if e < |After(evs).epochs| {
      SingleCheckInsAreNotLate(evs, e);
    } else {
      NothingBeforeCreation(evs, e);
    }
    AcksAgreeWithoutLateCheckIns(evs, e);
  }

  lemma EpochExists(evs: seq<Event>, h: nat)
    requires h < |After(evs).handlers|
    ensures After(evs).handlers[h].epoch < |After(evs).epochs|
  {
    ReachableInv(evs);
  }

  lemma SingleCheckInsAreNotLate(evs: seq<Event>, e: nat)
    requires e < |After(evs).epochs| && NoRepeats(CheckIns(evs, e))
    ensures LateCheckIns(evs, e) == 0
  {
    ReachableInv(evs);
    ReachableHistory(evs, e);
    var ep := After(evs).epochs[e];
    assert EpochInv(ep);
    NoRepeatsFits(CheckIns(evs, e), ep.synced);
  }

  /** Agreement does break: in any reachable state every check-in after an acknowledgement is late and is
      acknowledged with a start time of its own, so it disagrees with the earlier one exactly when the
      clock gives another instant. */
  lemma LateCheckInAnswersAnew(evs: seq<Event>, node: NodeId, nowNs: nat, g: nat, earlierNs: nat)
    requires var s := After(evs);
      && s.epochs != [] && node in Active(Current(s))
      && AckedIn(s, g, |s.epochs| - 1, StartTime(earlierNs))
    ensures var h, e := |After(evs).handlers|, |After(evs).epochs| - 1;
      var late := evs + [SyncTimer(node, nowNs), Read(h)];
      && LateCheckIns(late, e) > 0
      && AckedIn(After(late), g, e, StartTime(earlierNs)) && AckedIn(After(late), h, e, StartTime(nowNs))
      && (StartTime(nowNs) == StartTime(earlierNs) <==> nowNs == earlierNs)
  {
    AckMeansComplete(evs, g);
    LateCheckInSteps(After(evs), node, nowNs);
    LateCheckInIsLate(evs, node, nowNs);
    AfterAppend(evs, [SyncTimer(node, nowNs), Read(|After(evs).handlers|)]);
    RunTwo(After(evs), SyncTimer(node, nowNs), Read(|After(evs).handlers|));
  }

  lemma AckMeansComplete(evs: seq<Event>, g: nat)
    requires var s := After(evs);
      && g < |s.handlers| && s.handlers[g].epoch == |s.epochs| - 1
      && s.handlers[g].phase.Done? && s.handlers[g].phase.outcome.Ack?
    ensures After(evs).epochs != [] && AllSynced(Current(After(evs)))
  {
    ReachableInv(evs);
  }

  lemma LateCheckInIsLate(evs: seq<Event>, node: NodeId, nowNs: nat)
    requires var s := After(evs); s.epochs != [] && node in Active(Current(s)) && AllSynced(Current(s))
    ensures LateCheckIns(evs + [SyncTimer(node, nowNs), Read(|After(evs).handlers|)], |After(evs).epochs| - 1) > 0
  {
    var h, e := |After(evs).handlers|, |After(evs).epochs| - 1;
    var mid := evs + [SyncTimer(node, nowNs)];
    ListsExtend(evs, SyncTimer(node, nowNs), e);
    ListsExtend(mid, Read(h), e);
    assert mid + [Read(h)] == evs + [SyncTimer(node, nowNs), Read(h)];
  }

  lemma LateCheckInSteps(s: State, node: NodeId, nowNs: nat)
    requires s.epochs != [] && node in Active(Current(s)) && AllSynced(Current(s))
    ensures var t := Step(Step(s, SyncTimer(node, nowNs)), Read(|s.handlers|));
      && |t.handlers| == |s.handlers| + 1 && t.handlers[..|s.handlers|] == s.handlers
      && AckedIn(t, |s.handlers|, |s.epochs| - 1, StartTime(nowNs))
  {
    var r := Registered(s, node);
    RegisteredIsSubscribed(s, node);
    assert r.handlers[|s.handlers|] == Handler(node, |s.epochs| - 1, Reading, 0);
    assert AllSynced(Current(r));
  }

  // ----- cancellation

  /** A handler of a replaced workload: its channel is Cancelled while it runs, and it has not acked. */
  ghost predicate Doomed(s: State, h: nat)
  {
    && h < |s.handlers| && s.handlers[h].epoch < |s.epochs| - 1
    && s.epochs[s.handlers[h].epoch].value == Cancelled
    && (s.handlers[h].phase.Done? ==> s.handlers[h].phase.outcome in {Aborted, DeadlineExceeded, Disconnected})
  }

  lemma StaysDoomed(s: State, ev: Event, h: nat)
    requires Inv(s) && Doomed(s, h)
    ensures Doomed(Step(s, ev), h)
  {
  }

  lemma {:induction false} DoomedForEver(s: State, more: seq<Event>, h: nat)
    requires Inv(s) && Doomed(s, h)
    ensures Inv(RunFrom(s, more)) && Doomed(RunFrom(s, more), h)
  {
    if more != [] {
      var init, ev := more[..|more| - 1], more[|more| - 1];
      DoomedForEver(s, init, h);
      StepKeepsInv(RunFrom(s, init), ev);
      StaysDoomed(RunFrom(s, init), ev, h);
    }
  }

  /** Cancellation is final: a call still waiting when its workload is replaced never acks, in any
      continuation; its channel stays Cancelled and it can only end aborted, out of time or
      disconnected. */
  lemma CancellationIsFinal(evs: seq<Event>, more: seq<Event>, h: nat)
    requires h < |After(evs).handlers| && Live(After(evs).handlers[h])
    requires After(evs).handlers[h].epoch < |After(evs).epochs| - 1
    ensures Doomed(After(evs + more), h)
  {
    ReachableInv(evs);
    AfterAppend(evs, more);
    DoomedForEver(After(evs), more, h);
  }

  /** The "channel closed" answer is dead code: a replaced workload's handlers see Cancelled first. */
  lemma ClosedChannelIsNeverSeen(evs: seq<Event>, h: nat)
    requires h < |After(evs).handlers|
    ensures After(evs).handlers[h].phase != Done(ChannelClosed)
  {
    ReachableInv(evs);
  }

  // ----- wake-ups and termination

  ghost predicate LeftWaiting(s: State, e: nat)
  {
    e < |s.epochs| && s.epochs[e].value != Waiting
  }

  lemma StepNeverWaitsAgain(s: State, ev: Event, e: nat)
    requires Inv(s) && LeftWaiting(s, e)
    ensures LeftWaiting(Step(s, ev), e)
  {
  }

  lemma {:induction false} RunNeverWaitsAgain(s: State, more: seq<Event>, e: nat)
    requires Inv(s) && LeftWaiting(s, e)
    ensures Inv(RunFrom(s, more)) && LeftWaiting(RunFrom(s, more), e)
  {
    if more != [] {
      var init, ev := more[..|more| - 1], more[|more| - 1];
      RunNeverWaitsAgain(s, init, e);
      StepKeepsInv(RunFrom(s, init), ev);
      StepNeverWaitsAgain(RunFrom(s, init), ev, e);
    }
  }

  /** Once a barrier has left Waiting it never returns to it. */
  lemma NeverWaitsAgain(evs: seq<Event>, more: seq<Event>, e: nat)
    requires LeftWaiting(After(evs), e)
    ensures LeftWaiting(After(evs + more), e)
  {
    ReachableInv(evs);
    AfterAppend(evs, more);
    RunNeverWaitsAgain(After(evs), more, e);
  }

  /** The steps with which a handler finishes once its barrier has left Waiting. */
  function FinishingSteps(x: Handler, h: nat): seq<Event>
  {
    match x.phase
    case Reading => [Read(h)]
    case Selecting(_) => [Wake(h), Read(h)]
    case Expired => [Expire(h)]
    case Done(_) => []
  }

  function OutcomeOf(v: BarrierStatus): Outcome
    requires v != Waiting
  {
    match v
    case Released(sec, nsec) => Ack(sec, nsec)
    case Cancelled => Aborted
    case TimedOut => DeadlineExceeded
  }

  ghost predicate EndsWith(s: State, h: nat, o: Outcome)
  {
    h < |s.handlers| && s.handlers[h].phase == Done(o)
  }

  lemma OwnStepsFinish(s: State, h: nat)
    requires Inv(s) && h < |s.handlers| && Live(s.handlers[h]) && LeftWaiting(s, s.handlers[h].epoch)
    ensures var x, v := s.handlers[h], s.epochs[s.handlers[h].epoch].value;
      match x.phase
      case Reading => EndsWith(Step(s, Read(h)), h, OutcomeOf(v))
      case Selecting(_) => EndsWith(Step(Step(s, Wake(h)), Read(h)), h, OutcomeOf(v))
      case Expired => EndsWith(Step(s, Expire(h)), h, DeadlineExceeded)
      case Done(_) => true
  {
  }

  lemma FinishingStepsFinish(s: State, h: nat)
    requires Inv(s) && h < |s.handlers| && Live(s.handlers[h]) && LeftWaiting(s, s.handlers[h].epoch)
    ensures EndsWith(RunFrom(s, FinishingSteps(s.handlers[h], h)), h,
                     if s.handlers[h].phase == Expired then DeadlineExceeded
                     else OutcomeOf(s.epochs[s.handlers[h].epoch].value))
  {
    OwnStepsFinish(s, h);
    match s.handlers[h].phase
    case Reading => RunOne(s, Read(h));
    case Selecting(_) => RunTwo(s, Wake(h), Read(h));
    case Expired => RunOne(s, Expire(h));
  }

  /** No lost wake-up: whenever a barrier has left Waiting, every handler still subscribed to it can
      finish by its own steps alone, with the answer that the barrier holds unless its timer won. */
  lemma NoLostWakeUp(evs: seq<Event>, h: nat)
    requires h < |After(evs).handlers| && Live(After(evs).handlers[h])
    requires LeftWaiting(After(evs), After(evs).handlers[h].epoch)
    ensures var x := After(evs).handlers[h];
      EndsWith(After(evs + FinishingSteps(x, h)), h,
               if x.phase == Expired then DeadlineExceeded else OutcomeOf(After(evs).epochs[x.epoch].value))
  {
    ReachableInv(evs);
    FinishingStepsFinish(After(evs), h);
    AfterAppend(evs, FinishingSteps(After(evs).handlers[h], h));
  }

  function Rank(x: Handler): nat
  {
    match x.phase
    case Reading => if x.bodies == 0 then 4 else 2
    case Selecting(_) => 3
    case Expired => 1
    case Done(_) => 0
  }

  lemma ChangeLowersRank(s: State, ev: Event, h: nat)
    requires Inv(s) && h < |s.handlers|
    ensures var t := Step(s, ev);
      && h < |t.handlers|
      && (t.handlers[h] != s.handlers[h] ==> Rank(t.handlers[h]) < Rank(s.handlers[h]))
  {
  }

  /** How often handler h has changed in the run. */
  function Changes(evs: seq<Event>, h: nat): nat
  {
    if evs == [] then 0 else
      var init := evs[..|evs| - 1];
      var s, t := After(init), After(evs);
      Changes(init, h) +
      if h < |s.handlers| && h < |t.handlers| && s.handlers[h] != t.handlers[h] then 1 else 0
  }

  lemma {:induction false} NoChangesBeforeCreation(evs: seq<Event>, h: nat)
    requires |After(evs).handlers| <= h
    ensures Changes(evs, h) == 0
  {
    if evs != [] {
      var init := evs[..|evs| - 1];
      ReachableInv(init);
      if h < |After(init).handlers| {
        HandlerAfterStep(After(init), evs[|evs| - 1], h);
      } else {
        NoChangesBeforeCreation(init, h);
      }
    }
  }

  /** Termination: in every run a handler changes at most four times and enters its loop body at
      most twice. */
  lemma {:induction false} HandlersTerminate(evs: seq<Event>, h: nat)
    requires h < |After(evs).handlers|
    ensures Changes(evs, h) + Rank(After(evs).handlers[h]) <= 4
    ensures After(evs).handlers[h].bodies <= 2
  {
    ReachableInv(evs);
    var init := evs[..|evs| - 1];
    ReachableInv(init);
    if h < |After(init).handlers| {
      HandlersTerminate(init, h);
      ChangeLowersRank(After(init), evs[|evs| - 1], h);
    } else {
      NoChangesBeforeCreation(init, h);
    }
  }

  // ----- what it takes to fail

  /** Some handler, of whatever epoch, ended by timeout while e was current. */
  ghost predicate ExpiredDuring(evs: seq<Event>, e: nat)
  {
    exists i :: 0 <= i < |evs| && ExpiresNow(After(evs[..i]), evs[i], e)
  }

  ghost predicate TimedOutItself(evs: seq<Event>, h: nat)
  {
    exists i :: 0 <= i < |evs| && evs[i] == Expire(h) &&
                h < |After(evs[..i]).handlers| && After(evs[..i]).handlers[h].phase == Expired
  }

  lemma CausesPersist(evs: seq<Event>, ev: Event, e: nat, h: nat)
    ensures ExpiredDuring(evs, e) ==> ExpiredDuring(evs + [ev], e)
    ensures TimedOutItself(evs, h) ==> TimedOutItself(evs + [ev], h)
    ensures ExpiresNow(After(evs), ev, e) ==> ExpiredDuring(evs + [ev], e)
    ensures ev == Expire(h) && h < |After(evs).handlers| && After(evs).handlers[h].phase == Expired ==>
      TimedOutItself(evs + [ev], h)
  {
    var all := evs + [ev];
    assert all[..|evs|] == evs && all[|evs|] == ev;
    if ExpiredDuring(evs, e) {
      var i :| 0 <= i < |evs| && ExpiresNow(After(evs[..i]), evs[i], e);
      assert all[..i] == evs[..i] && all[i] == evs[i];
    }
    if TimedOutItself(evs, h) {
      var i :| 0 <= i < |evs| && evs[i] == Expire(h) &&
               h < |After(evs[..i]).handlers| && After(evs[..i]).handlers[h].phase == Expired;
      assert all[..i] == evs[..i] && all[i] == evs[i];
    }
  }

  /** A barrier shows TimedOut only if a handler timed out while its workload was current. */
  lemma {:induction false} TimedOutHasCause(evs: seq<Event>, e: nat)
    requires e < |After(evs).epochs| && After(evs).epochs[e].value == TimedOut
    ensures ExpiredDuring(evs, e)
  {
    var init, ev := evs[..|evs| - 1], evs[|evs| - 1];
    assert evs == init + [ev];
    ReachableInv(init);
    CausesPersist(init, ev, e, 0);
    if e < |After(init).epochs| {
      EpochAfterStep(After(init), ev, e);
      if After(init).epochs[e].value == TimedOut {
        TimedOutHasCause(init, e);
      }
    } else {
      EpochCreated(After(init), ev, e);
    }
  }

  lemma DeadlineStep(s: State, ev: Event, h: nat)
    requires Inv(s) && h < |s.handlers| && Live(s.handlers[h])
    requires h < |Step(s, ev).handlers| && Step(s, ev).handlers[h].phase == Done(DeadlineExceeded)
    ensures (ev == Expire(h) && s.handlers[h].phase == Expired) || s.epochs[s.handlers[h].epoch].value == TimedOut
  {
  }

  /** Aborted means that the workload was replaced; deadline-exceeded means that this call timed out
      or that some call timed out while this workload was current. */
  lemma {:induction false} FailuresHaveCauses(evs: seq<Event>, h: nat)
    requires h < |After(evs).handlers|
    ensures var x := After(evs).handlers[h];
      && (x.phase == Done(Aborted) ==> x.epoch < |After(evs).epochs| - 1)
      && (x.phase == Done(DeadlineExceeded) ==> TimedOutItself(evs, h) || ExpiredDuring(evs, x.epoch))
  {
    ReachableInv(evs);
    var init, ev := evs[..|evs| - 1], evs[|evs| - 1];
    assert evs == init + [ev];
    ReachableInv(init);
    var s, x := After(init), After(evs).handlers[h];
    CausesPersist(init, ev, x.epoch, h);
    if h >= |s.handlers| {
      NewHandlerIsLive(s, ev, h);
    } else {
      HandlerAfterStep(s, ev, h);
      if x.phase == Done(DeadlineExceeded) {
        if Live(s.handlers[h]) {
          DeadlineStep(s, ev, h);
          if s.epochs[x.epoch].value == TimedOut {
            TimedOutHasCause(init, x.epoch);
          }
        } else {
          FailuresHaveCauses(init, h);
        }
      }
    }
  }

  lemma {:induction false} CompleteSetIsReleased(evs: seq<Event>, e: nat)
    requires e < |After(evs).epochs| && Active(After(evs).epochs[e]) != {} && AllSynced(After(evs).epochs[e])
    ensures After(evs).epochs[e].value != Waiting
  {
    var init, ev := evs[..|evs| - 1], evs[|evs| - 1];
    ReachableInv(init);
    var s := After(init);
    if e < |s.epochs| {
      EpochAfterStep(s, ev, e);
      if AllSynced(s.epochs[e]) {
        CompleteSetIsReleased(init, e);
      }
    } else {
      EpochCreated(s, ev, e);
    }
  }

  ghost predicate ExpiresAt(evs: seq<Event>, m: nat, e: nat)
    requires m < |evs|
  {
    ExpiresNow(After(evs[..m]), evs[m], e)
  }

  ghost predicate BroadcastsAt(evs: seq<Event>, m: nat, e: nat)
    requires m < |evs|
  {
    Broadcasts(After(evs[..m]), evs[m], e)
  }

  ghost predicate NoBroadcastFrom(evs: seq<Event>, lo: nat, e: nat)
  {
    forall k :: lo <= k < |evs| ==> !BroadcastsAt(evs, k, e)
  }

  /** Some call, of whatever epoch, timed out while e was current, and no start time was broadcast since. */
  ghost predicate Spoiled(evs: seq<Event>, e: nat)
  {
    exists m: nat :: m < |evs| && ExpiresAt(evs, m, e) && NoBroadcastFrom(evs, m + 1, e)
  }

  lemma SameEvents(evs: seq<Event>, ev: Event, m: nat, e: nat)
    requires m <= |evs|
    ensures var all := evs + [ev];
      && ExpiresAt(all, m, e) == (if m < |evs| then ExpiresAt(evs, m, e) else ExpiresNow(After(evs), ev, e))
      && BroadcastsAt(all, m, e) == (if m < |evs| then BroadcastsAt(evs, m, e) else Broadcasts(After(evs), ev, e))
  {
    var all := evs + [ev];
    assert all[..m] == evs[..m] && evs[..|evs|] == evs;
  }

  lemma NoBroadcastGrows(evs: seq<Event>, ev: Event, lo: nat, e: nat)
    requires lo <= |evs|
    ensures NoBroadcastFrom(evs + [ev], lo, e) <==> NoBroadcastFrom(evs, lo, e) && !Broadcasts(After(evs), ev, e)
  {
    var all := evs + [ev];
    SameEvents(evs, ev, |evs|, e);
    if NoBroadcastFrom(all, lo, e) {
      assert !BroadcastsAt(all, |evs|, e);
      forall k | lo <= k < |evs| ensures !BroadcastsAt(evs, k, e) {
        SameEvents(evs, ev, k, e);
        assert !BroadcastsAt(all, k, e);
      }
    }
    if NoBroadcastFrom(evs, lo, e) && !Broadcasts(After(evs), ev, e) {
      forall k | lo <= k < |all| ensures !BroadcastsAt(all, k, e) {
        SameEvents(evs, ev, k, e);
      }
    }
  }

  /** A timeout spoils, a broadcast repairs, everything else leaves it as it was. */
  lemma {:induction false} SpoiledAfterStep(evs: seq<Event>, ev: Event, e: nat)
    ensures Spoiled(evs + [ev], e) <==>
      ExpiresNow(After(evs), ev, e) || (Spoiled(evs, e) && !Broadcasts(After(evs), ev, e))
  {
    var all := evs + [ev];
    SameEvents(evs, ev, |evs|, e);
    if Spoiled(all, e) {
      var m: nat :| m < |all| && ExpiresAt(all, m, e) && NoBroadcastFrom(all, m + 1, e);
      SameEvents(evs, ev, m, e);
      if m < |evs| {
        NoBroadcastGrows(evs, ev, m + 1, e);
      }
    }
    if ExpiresNow(After(evs), ev, e) {
      assert ExpiresAt(all, |evs|, e) && NoBroadcastFrom(all, |evs| + 1, e);
    } else if Spoiled(evs, e) && !Broadcasts(After(evs), ev, e) {
      var m: nat :| m < |evs| && ExpiresAt(evs, m, e) && NoBroadcastFrom(evs, m + 1, e);
      SameEvents(evs, ev, m, e);
      NoBroadcastGrows(evs, ev, m + 1, e);
    }
  }

  /** What one step does to the current barrier while a call of it stays live. */
  lemma ReleaseAfterStep(s: State, ev: Event, h: nat)
    requires Inv(s) && h < |Step(s, ev).handlers| && Live(Step(s, ev).handlers[h])
    requires Step(s, ev).handlers[h].epoch == |Step(s, ev).epochs| - 1
    ensures var t, e := Step(s, ev), |s.epochs| - 1;
      && !ev.AddSchedInfo? && |t.epochs| == |s.epochs|
      && (Broadcasts(s, ev, e) ==> Current(t).value.Released? && AllSynced(Current(t)))
      && (ExpiresNow(s, ev, e) ==> !Current(t).value.Released?)
      && (h >= |s.handlers| ==> Broadcasts(s, ev, e) || !AllSynced(Current(t)))
      && (!Broadcasts(s, ev, e) && !ExpiresNow(s, ev, e) && h < |s.handlers| ==>
            && Live(s.handlers[h]) && s.handlers[h].epoch == e
            && Current(t).value == Current(s).value && (AllSynced(Current(t)) <==> AllSynced(Current(s))))
  {
    StepKeepsInv(s, ev);
    if ev.AddSchedInfo? {
      assert h < |s.handlers|;
    } else {
      EpochAfterStep(s, ev, |s.epochs| - 1);
    }
    if h < |s.handlers| {
      HandlerAfterStep(s, ev, h);
    }
    if ExpiresNow(s, ev, |s.epochs| - 1) {
      assert HasReceiver(s, |s.epochs| - 1);
    }
  }

  /** Exactly when the current barrier is released while somebody waits: every active node has checked
      in and no timeout has come since the latest broadcast. */
  lemma {:induction false} ReleasedExactlyWhen(evs: seq<Event>, h: nat)
    requires h < |After(evs).handlers| && Live(After(evs).handlers[h])
    requires After(evs).handlers[h].epoch == |After(evs).epochs| - 1
    ensures var e := |After(evs).epochs| - 1;
      Current(After(evs)).value.Released? <==> AllSynced(Current(After(evs))) && !Spoiled(evs, e)
  {
    ReachableInv(evs);
    var init, ev := evs[..|evs| - 1], evs[|evs| - 1];
    assert evs == init + [ev];
    ReachableInv(init);
    var s := After(init);
    ReleaseAfterStep(s, ev, h);
    SpoiledAfterStep(init, ev, |s.epochs| - 1);
    if h < |s.handlers| && !Broadcasts(s, ev, |s.epochs| - 1) && !ExpiresNow(s, ev, |s.epochs| - 1) {
      ReleasedExactlyWhen(init, h);
    }
  }

  ghost predicate EndsInAck(s: State, h: nat)
  {
    h < |s.handlers| && s.handlers[h].phase.Done? && s.handlers[h].phase.outcome.Ack?
  }

  /** While the barrier is Waiting, a call's own steps do not finish it. */
  lemma WaitingCallDoesNotAck(s: State, h: nat)
    requires Inv(s) && h < |s.handlers| && Live(s.handlers[h]) && s.handlers[h].epoch == |s.epochs| - 1
    requires Current(s).value == Waiting
    ensures !EndsInAck(RunFrom(s, FinishingSteps(s.handlers[h], h)), h)
  {
    match s.handlers[h].phase
    case Reading => RunOne(s, Read(h));
    case Selecting(_) => RunTwo(s, Wake(h), Read(h));
    case Expired => RunOne(s, Expire(h));
  }

  /** All or nothing, exactly: a live call of the current workload ends in an ack by its own steps if and
      only if its timer has not fired, every active node has checked in and no timeout of any call has
      come since the latest broadcast. The last two do not depend on the call. */
  lemma CallAcksExactlyWhen(evs: seq<Event>, h: nat)
    requires h < |After(evs).handlers| && Live(After(evs).handlers[h])
    requires After(evs).handlers[h].epoch == |After(evs).epochs| - 1
    ensures var s := After(evs);
      EndsInAck(After(evs + FinishingSteps(s.handlers[h], h)), h) <==>
      s.handlers[h].phase != Expired && AllSynced(Current(s)) && !Spoiled(evs, |s.epochs| - 1)
  {
    ReleasedExactlyWhen(evs, h);
    if Current(After(evs)).value == Waiting {
      ReachableInv(evs);
      WaitingCallDoesNotAck(After(evs), h);
      AfterAppend(evs, FinishingSteps(After(evs).handlers[h], h));
    } else {
      NoLostWakeUp(evs, h);
    }
  }

  /** In particular, without a timeout in the current workload a complete set of check-ins means that
      every waiting call whose own timer has not fired can finish, and finishes with the released time. */
  lemma UndisturbedReleaseAcksAll(evs: seq<Event>, h: nat)
    requires h < |After(evs).handlers| && Live(After(evs).handlers[h]) && After(evs).handlers[h].phase != Expired
    requires After(evs).handlers[h].epoch == |After(evs).epochs| - 1
    requires AllSynced(Current(After(evs))) && !ExpiredDuring(evs, |After(evs).epochs| - 1)
    ensures Current(After(evs)).value.Released?
    ensures EndsWith(After(evs + FinishingSteps(After(evs).handlers[h], h)), h,
                     Ack(Current(After(evs)).value.sec, Current(After(evs)).value.nsec))
  {
    ReleasedExactlyWhen(evs, h);
    NoLostWakeUp(evs, h);
  }

  // ----- runs that the design notes do not mention

  /** One task per node, each with a period of 10 us and a runtime of 1 us. */
  function TaskOn(node: NodeId): SchedTask
  {
    SchedTask("t", node, 0, Normal, 0, 10_000, 1_000, 10_000, 0, 0)
  }

  function TwoNodes(): map<NodeId, seq<SchedTask>>
  {
    map["a" := [TaskOn("a")], "b" := [TaskOn("b")]]
  }

  function Store(id: string): Event
  {
    AddSchedInfo(id, TwoNodes(), 10)
  }

  function Stored(id: string): Epoch
  {
    NewEpoch(id, TwoNodes(), 10)
  }

  /** A check-in, spelled out: the current epoch gains the node, and is released if that completes it. */
  lemma CheckInIs(past: seq<Epoch>, ep: Epoch, hs: seq<Handler>, node: NodeId, nowNs: nat)
    requires node in Active(ep)
    ensures var w := ep.(synced := ep.synced + {node});
      var all := hs + [Handler(node, |past|, Reading, 0)];
      Step(State(past + [ep], hs), SyncTimer(node, nowNs)) ==
        if AllSynced(w) then State(past + [w.(value := ReleaseAt(nowNs), version := w.version + 1)], all)
        else State(past + [w], all)
  {
    var s := State(past + [ep], hs);
    RegisteredIsSubscribed(s, node);
    var w := ep.(synced := ep.synced + {node});
    assert s.epochs[|past| := w] == past + [w];
    var r := w.(value := ReleaseAt(nowNs), version := w.version + 1);
    assert (past + [w])[|past| := r] == past + [r];
  }

  /** The first node has checked in and waits for the second one. */
  lemma FirstNodeWaits()
    ensures After([Store("w"), SyncTimer("a", 0), Read(0)]) ==
            State([Stored("w").(synced := {} + {"a"})], [Handler("a", 0, Selecting(0), 1)])
  {
    var e1, e2, e3 := Store("w"), SyncTimer("a", 0), Read(0);
    RunOne(START, e1);
    AfterExtends([e1], e2);
    AfterExtends([e1] + [e2], e3);
    FirstCheckIn();
    assert [e1] + [e2] + [e3] == [e1, e2, e3];
  }

  lemma FirstCheckIn()
    ensures Step(Step(Step(START, Store("w")), SyncTimer("a", 0)), Read(0)) ==
            State([Stored("w").(synced := {} + {"a"})], [Handler("a", 0, Selecting(0), 1)])
  {
    var ep := Stored("w");
    assert Step(START, Store("w")) == State([ep], []) by {
      assert [] + [ep] == [ep];
    }
    var w := ep.(synced := {} + {"a"});
    assert Step(State([ep], []), SyncTimer("a", 0)) == State([w], [Handler("a", 0, Reading, 0)]) by {
      CheckInIs([], ep, [], "a", 0);
      assert "b" in Active(w) && !AllSynced(w);
      assert [] + [ep] == [ep] && [] + [w] == [w];
    }
    FirstRead(w);
  }

  lemma FirstRead(w: Epoch)
    requires w.value == Waiting && w.version == 0
    ensures Step(State([w], [Handler("a", 0, Reading, 0)]), Read(0)) == State([w], [Handler("a", 0, Selecting(0), 1)])
  {
  }

  /** The second node completes the set while the first one still waits. */
  lemma SecondCheckIn()
    ensures var w := Stored("w").(synced := {} + {"a"});
      var released := Stored("w").(synced := {} + {"a"} + {"b"}, value := Released(1, 0), version := 1);
      Step(State([w], [Handler("a", 0, Selecting(0), 1)]), SyncTimer("b", 0)) ==
      State([released], [Handler("a", 0, Selecting(0), 1), Handler("b", 0, Reading, 0)])
  {
    var w := Stored("w").(synced := {} + {"a"});
    var h0, h1 := Handler("a", 0, Selecting(0), 1), Handler("b", 0, Reading, 0);
    CheckInIs([], w, [h0], "b", 0);
    var released := w.(synced := w.synced + {"b"}, value := Released(1, 0), version := 1);
    assert AllSynced(released) && StartTime(0) == (1, 0);
    assert [] + [w] == [w] && [] + [released] == [released] && [h0] + [h1] == [h0, h1];
  }

  lemma BothNodesCheckedIn()
    ensures var ep := Stored("w").(synced := {} + {"a"} + {"b"}, value := Released(1, 0), version := 1);
      After([Store("w"), SyncTimer("a", 0), Read(0), SyncTimer("b", 0)]) ==
      State([ep], [Handler("a", 0, Selecting(0), 1), Handler("b", 0, Reading, 0)])
  {
    var pre := [Store("w"), SyncTimer("a", 0), Read(0)];
    FirstNodeWaits();
    SecondCheckIn();
    AfterExtends(pre, SyncTimer("b", 0));
    assert pre + [SyncTimer("b", 0)] == [Store("w"), SyncTimer("a", 0), Read(0), SyncTimer("b", 0)];
  }

  /** Start times may differ: node "b" is acknowledged, checks in once more five nanoseconds later and is
      acknowledged with another start time of the same workload. */
  lemma StartTimesMayDiffer()
    ensures var run := [Store("w"), SyncTimer("a", 0), Read(0), SyncTimer("b", 0)] + [Read(1)];
      var s := After(run + [SyncTimer("b", 5), Read(2)]);
      AckedIn(s, 1, 0, (1, 0)) && AckedIn(s, 2, 0, (1, 5))
  {
    var pre := [Store("w"), SyncTimer("a", 0), Read(0), SyncTimer("b", 0)];
    BothNodesCheckedIn();
    AfterExtends(pre, Read(1));
    assert StartTime(0) == (1, 0) && StartTime(5) == (1, 5);
    LateCheckInAnswersAnew(pre + [Read(1)], "b", 5, 1, 0);
  }

  /** Not all or nothing: both nodes checked in and the barrier was released, yet one call acks and
      the other, whose timer fired before it woke, ends out of time. */
  lemma MixedOutcomesHappen()
    ensures var pre := [Store("w"), SyncTimer("a", 0), Read(0), SyncTimer("b", 0)];
      var s := After(pre + [Read(1)] + [Fire(0)] + [Expire(0)]);
      && |s.handlers| == 2 && s.handlers[0].phase == Done(DeadlineExceeded)
      && s.handlers[1].phase == Done(Ack(1, 0))
  {
    var pre := [Store("w"), SyncTimer("a", 0), Read(0), SyncTimer("b", 0)];
    BothNodesCheckedIn();
    var ep := Stored("w").(synced := {} + {"a"} + {"b"}, value := Released(1, 0), version := 1);
    AfterExtends(pre, Read(1));
    AfterExtends(pre + [Read(1)], Fire(0));
    AfterExtends(pre + [Read(1)] + [Fire(0)], Expire(0));
    ReleasedThenExpired(ep);
  }

  lemma ReleasedThenExpired(ep: Epoch)
    requires ep.value == Released(1, 0)
    ensures var s := State([ep], [Handler("a", 0, Selecting(0), 1), Handler("b", 0, Reading, 0)]);
      var t := Step(Step(Step(s, Read(1)), Fire(0)), Expire(0));
      |t.handlers| == 2 && t.handlers[0].phase == Done(DeadlineExceeded) && t.handlers[1].phase == Done(Ack(1, 0))
  {
  }

  /** A call of a replaced workload may time out after another call has checked in for the next one. */
  lemma StaleHandlerSurvivesReplacement()
    ensures var w, next := Stored("w"), Stored("x");
      After([Store("w"), SyncTimer("a", 0), Read(0), Fire(0), Store("x"), SyncTimer("a", 0)]) ==
      State([w.(synced := {} + {"a"}, value := Cancelled, version := 1), next.(synced := {} + {"a"})],
            [Handler("a", 0, Expired, 1), Handler("a", 1, Reading, 0)])
  {
    var pre := [Store("w"), SyncTimer("a", 0), Read(0)];
    FirstNodeWaits();
    AfterExtends(pre, Fire(0));
    AfterExtends(pre + [Fire(0)], Store("x"));
    AfterExtends(pre + [Fire(0)] + [Store("x")], SyncTimer("a", 0));
    ExpiredThenReplaced(Stored("w").(synced := {} + {"a"}));
    assert pre + [Fire(0)] + [Store("x")] + [SyncTimer("a", 0)] ==
      [Store("w"), SyncTimer("a", 0), Read(0), Fire(0), Store("x"), SyncTimer("a", 0)];
  }

  lemma ExpiredThenReplaced(w: Epoch)
    requires w.version == 0
    ensures var s := State([w], [Handler("a", 0, Selecting(0), 1)]);
      Step(Step(Step(s, Fire(0)), Store("x")), SyncTimer("a", 0)) ==
      State([w.(value := Cancelled, version := 1), Stored("x").(synced := {} + {"a"})],
            [Handler("a", 0, Expired, 1), Handler("a", 1, Reading, 0)])
  {
    var s := State([w], [Handler("a", 0, Selecting(0), 1)]);
    var h0, h1 := Handler("a", 0, Expired, 1), Handler("a", 1, Reading, 0);
    var s1 := State([w], [h0]);
    assert Step(s, Fire(0)) == s1;
    assert s1.handlers[0] == h0 && HasReceiver(s1, 0);
    var gone, next := w.(value := Cancelled, version := 1), Stored("x");
    assert [w][0 := gone] + [next] == [gone] + [next];
    assert Step(s1, Store("x")) == State([gone] + [next], [h0]);
    CheckInIs([gone], next, [h0], "a", 0);
    var one := next.(synced := {} + {"a"});
    assert "b" in Active(one) && !AllSynced(one);
    assert [gone] + [one] == [gone, one] && [h0] + [h1] == [h0, h1];
  }

  /** Every timeout hits whatever workload is current: in any reachable state, when a handler of any
      epoch times out, every other call still waiting in the current workload then ends out of time,
      even if the barrier had been released. */
  lemma EveryTimeoutHitsCurrentWorkload(evs: seq<Event>, k: nat, h: nat)
    requires var s := After(evs);
      && k < |s.handlers| && s.handlers[k].phase == Expired
      && h < |s.handlers| && h != k && Live(s.handlers[h]) && s.handlers[h].epoch == |s.epochs| - 1
    ensures var t := After(evs + [Expire(k)]);
      h < |t.handlers| && EndsWith(After(evs + [Expire(k)] + FinishingSteps(t.handlers[h], h)), h, DeadlineExceeded)
  {
    ReachableInv(evs);
    ExpiryHitsCurrent(After(evs), k, h);
    AfterExtends(evs, Expire(k));
    NoLostWakeUp(evs + [Expire(k)], h);
  }

  /** A timeout overwrites the current barrier if somebody still waits there, and otherwise leaves it. */
  lemma TimeoutOverwritesExactlyWhenSomebodyWaits(s: State, k: nat)
    requires Inv(s) && k < |s.handlers| && s.handlers[k].phase == Expired
    ensures var t := Step(s, Expire(k));
      && t.epochs != [] && |t.epochs| == |s.epochs|
      && (if exists h :: 0 <= h < |s.handlers| && s.handlers[h].epoch == |s.epochs| - 1 && !s.handlers[h].phase.Done?
          then Current(t).value == TimedOut && Current(t).version == Current(s).version + 1
          else t.epochs == s.epochs)
  {
  }

  /** A client that goes away ends its own call and nothing else. */
  lemma DisconnectEndsOneCall(s: State, h: nat)
    requires Inv(s) && h < |s.handlers| && Live(s.handlers[h])
    ensures var t := Step(s, Disconnect(h));
      && t.epochs == s.epochs && |t.handlers| == |s.handlers| && t.handlers[h].phase == Done(Disconnected)
      && forall k :: 0 <= k < |s.handlers| && k != h ==> t.handlers[k] == s.handlers[k]
  {
  }

  lemma ExpiryHitsCurrent(s: State, k: nat, h: nat)
    requires Inv(s) && k < |s.handlers| && s.handlers[k].phase == Expired
    requires h < |s.handlers| && h != k && Live(s.handlers[h]) && s.handlers[h].epoch == |s.epochs| - 1
    ensures var t := Step(s, Expire(k));
      && |t.handlers| == |s.handlers| && t.handlers[h] == s.handlers[h] && |t.epochs| == |s.epochs|
      && Current(t).value == TimedOut
  {
  }
}
