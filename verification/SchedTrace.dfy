/**
 The scheduler trace program: two per-process maps fed by the waking and switch tracepoints, and
 a lossy ring buffer of execution spans. One tracepoint hit is one step. Whether a ring-buffer
 slot is free and whether a full map accepts a new key are inputs.
 */
module SchedTrace {
  import Runs

  type Pid = int

  datatype Slice = Slice(wakeup: nat, start: nat)

  datatype Span = Span(pid: Pid, wakeup: nat, start: nat, stop: nat)

  datatype Trace = Trace(
    filter: set<Pid>,
    waking: map<Pid, nat>,
    running: map<Pid, Slice>,
    emitted: seq<Span>)

  datatype Event =
    | AddPid(pid: Pid)
    | DelPid(pid: Pid)
    | Waking(pid: Pid, now: nat, room: bool)
    | Switch(prev: Pid, next: Pid, now: nat, preempted: bool, slot: bool, roomWaking: bool, roomRunning: bool)

  const START := Trace({}, map[], map[], [])

  // ----- one step

  /** Insert or overwrite; a full map refuses new keys. */
  function Put<V>(m: map<Pid, V>, k: Pid, v: V, room: bool): map<Pid, V>
  {
    if k in m || room then m[k := v] else m
  }

  function SwitchOut(s: Trace, e: Event): Trace
    requires e.Switch?
  {
    if e.prev !in s.running then s else
      var slice := s.running[e.prev];
      s.(emitted := s.emitted + [Span(e.prev, slice.wakeup, slice.start, e.now)],
         waking := if e.preempted then Put(s.waking, e.prev, slice.wakeup, e.roomWaking) else s.waking,
         running := s.running - {e.prev})
  }

  function SwitchIn(s: Trace, e: Event): Trace
    requires e.Switch?
  {
    if e.next !in s.filter || e.next !in s.waking then s else
      s.(running := Put(s.running, e.next, Slice(s.waking[e.next], e.now), e.roomRunning),
         waking := s.waking - {e.next})
  }

  /** No slot for the outgoing task: the program gives up before it looks at the incoming one. */
  predicate Dropped(s: Trace, e: Event)
  {
    e.Switch? && e.prev in s.running && !e.slot
  }

  function Step(s: Trace, e: Event): Trace
  {
    match e
    case AddPid(p) => s.(filter := s.filter + {p})
    case DelPid(p) => s.(filter := s.filter - {p})
    case Waking(p, now, room) => if p in s.filter then s.(waking := Put(s.waking, p, now, room)) else s
    case Switch(_, _, _, _, _, _, _) => if Dropped(s, e) then s else SwitchIn(SwitchOut(s, e), e)
  }

  function After(evs: seq<Event>): Trace
  {
    Runs.Reached(Step, START, evs)
  }

  predicate Timed(e: Event)
  {
    e.Waking? || e.Switch?
  }

  /** The kernel clock never goes back. */
  ghost predicate Monotone(evs: seq<Event>)
  {
    forall i, j :: 0 <= i < j < |evs| && Timed(evs[i]) && Timed(evs[j]) ==> evs[i].now <= evs[j].now
  }

  // ----- spans are well formed, ordered and disjoint

  ghost predicate SpansOrdered(spans: seq<Span>)
  {
    && (forall i :: 0 <= i < |spans| ==> spans[i].wakeup <= spans[i].start <= spans[i].stop)
    && (forall i, j :: 0 <= i < j < |spans| && spans[i].pid == spans[j].pid ==> spans[i].stop <= spans[j].start)
  }

  /** Everything recorded lies in the past of now, and a running task started after its last span. */
  ghost predicate Consistent(s: Trace, now: nat)
  {
    && (forall p :: p in s.waking ==> s.waking[p] <= now)
    && (forall p :: p in s.running ==> s.running[p].wakeup <= s.running[p].start <= now)
    && (forall i :: 0 <= i < |s.emitted| ==> s.emitted[i].stop <= now)
    && (forall i :: 0 <= i < |s.emitted| && s.emitted[i].pid in s.running ==>
          s.emitted[i].stop <= s.running[s.emitted[i].pid].start)
    && SpansOrdered(s.emitted)
  }

  lemma SwitchOutConsistent(s: Trace, e: Event)
    requires e.Switch? && Consistent(s, e.now)
    ensures Consistent(SwitchOut(s, e), e.now)
  {
  }

  lemma SwitchInConsistent(s: Trace, e: Event)
    requires e.Switch? && Consistent(s, e.now)
    ensures Consistent(SwitchIn(s, e), e.now)
  {
  }

  lemma LaterConsistent(s: Trace, t: nat, now: nat)
    requires Consistent(s, t) && t <= now
    ensures Consistent(s, now)
  {
  }

  /** Time of the last timed event. */
  function Clock(evs: seq<Event>): nat
  {
    if evs == [] then 0
    else if Timed(evs[|evs| - 1]) then evs[|evs| - 1].now
    else Clock(evs[..|evs| - 1])
  }

  lemma {:induction false} RunIsConsistent(evs: seq<Event>)
    requires Monotone(evs)
    ensures Consistent(After(evs), Clock(evs))
  {
    if evs != [] {
      var init, e := evs[..|evs| - 1], evs[|evs| - 1];
      RunIsConsistent(init);
      if Timed(e) {
        ClockAdvances(init, e);
        LaterConsistent(After(init), Clock(init), e.now);
        if e.Switch? {
          SwitchOutConsistent(After(init), e);
          SwitchInConsistent(SwitchOut(After(init), e), e);
        }
      }
    }
  }

  lemma {:induction false} ClockAdvances(evs: seq<Event>, e: Event)
    requires Timed(e) && forall i :: 0 <= i < |evs| && Timed(evs[i]) ==> evs[i].now <= e.now
    ensures Clock(evs) <= e.now
  {
    if evs != [] && !Timed(evs[|evs| - 1]) {
      ClockAdvances(evs[..|evs| - 1], e);
    }
  }

  /** In every run, whatever is dropped, each emitted span has wakeup <= start <= stop, and the
      spans of one process are in order and do not overlap. */
  lemma EmittedSpansAreOrdered(evs: seq<Event>)
    requires Monotone(evs)
    ensures SpansOrdered(After(evs).emitted)
  {
    RunIsConsistent(evs);
  }

  /** A process is tracked exactly if it was added and not removed since. */
  lemma {:induction false} FilterHoldsAddedPids(evs: seq<Event>, p: Pid)
    ensures p in After(evs).filter <==>
      exists i :: 0 <= i < |evs| && evs[i] == AddPid(p) && forall m :: i < m < |evs| ==> evs[m] != DelPid(p)
  {
    if evs != [] {
      var init, e := evs[..|evs| - 1], evs[|evs| - 1];
      assert evs == init + [e];
      FilterHoldsAddedPids(init, p);
      assert e == AddPid(p) ==> evs[|init|] == AddPid(p);
      if p in After(init).filter && e != DelPid(p) {
        var i :| 0 <= i < |init| && init[i] == AddPid(p) && forall m :: i < m < |init| ==> init[m] != DelPid(p);
        assert evs[i] == AddPid(p);
      }
      assert e == DelPid(p) ==> evs[|init|] == DelPid(p);
    }
  }

  // ----- spans are real

  predicate Leaves(e: Event, p: Pid)
  {
    e.Switch? && e.prev == p
  }

  predicate Enters(e: Event, p: Pid)
  {
    e.Switch? && e.next == p
  }

  /** Event i records a wake-up of p that happens now. */
  predicate StoresWake(evs: seq<Event>, i: nat, p: Pid)
    requires i < |evs|
  {
    var s := After(evs[..i]);
    evs[i].Waking? && evs[i].pid == p && p in s.filter && (p in s.waking || evs[i].room)
  }

  /** Event i closes a slice of p by preemption and records the slice's wake-up once more. */
  predicate StoresCarried(evs: seq<Event>, i: nat, p: Pid)
    requires i < |evs|
  {
    var s := After(evs[..i]);
    && Leaves(evs[i], p) && p in s.running && evs[i].slot
    && evs[i].preempted && (p in s.waking || evs[i].roomWaking)
  }

  predicate Stores(evs: seq<Event>, i: nat, p: Pid)
    requires i < |evs|
  {
    StoresWake(evs, i, p) || StoresCarried(evs, i, p)
  }

  predicate StoresAt(evs: seq<Event>, i: nat, p: Pid, t: nat)
    requires i < |evs|
  {
    Stores(evs, i, p) && t == if evs[i].Waking? then evs[i].now else After(evs[..i]).running[p].wakeup
  }

  /** A switch to p at event i opens no slice: the program gave up before, or p is not tracked. */
  predicate Missed(evs: seq<Event>, i: nat, p: Pid)
    requires i < |evs|
  {
    Dropped(After(evs[..i]), evs[i]) || p !in After(evs[..i]).filter
  }

  /** Event i records wake-up t of p, and no event after it and before hi records another. */
  ghost predicate LatestStore(evs: seq<Event>, i: nat, hi: nat, p: Pid, t: nat)
    requires i < hi <= |evs|
  {
    StoresAt(evs, i, p, t) && forall m :: i < m < hi ==> !Stores(evs, m, p)
  }

  ghost predicate OnlyMissed(evs: seq<Event>, p: Pid, lo: nat, hi: nat)
    requires hi <= |evs|
  {
    forall m :: lo <= m < hi && Enters(evs[m], p) ==> Missed(evs, m, p)
  }

  /** Wake-up t of p, as event j finds it, was recorded last by event i and not used since. */
  ghost predicate WokenBy(evs: seq<Event>, i: nat, j: nat, p: Pid, t: nat)
    requires i <= j < |evs|
  {
    LatestStore(evs, i, j + 1, p, t) && OnlyMissed(evs, p, i, j)
  }

  /** A switch to p while p is tracked, with the wake-up that is recorded then. */
  ghost predicate StartsAt(evs: seq<Event>, j: nat, p: Pid, slice: Slice)
    requires j < |evs|
  {
    Enters(evs[j], p) && evs[j].now == slice.start && p in After(evs[..j]).filter &&
    WokenAt(evs, j, p, slice.wakeup)
  }

  ghost predicate WokenAt(evs: seq<Event>, j: nat, p: Pid, t: nat)
    requires j < |evs|
  {
    exists i: nat :: i <= j && WokenBy(evs, i, j, p, t)
  }

  /** Every switch away from p in the range found no slot. */
  ghost predicate OnlyDrops(evs: seq<Event>, p: Pid, lo: nat, hi: nat)
    requires hi <= |evs|
  {
    forall m :: lo <= m < hi && Leaves(evs[m], p) ==> Dropped(After(evs[..m]), evs[m])
  }

  /** The slice was opened by a switch to p, and no switch away from p has closed it since. */
  ghost predicate Started(evs: seq<Event>, p: Pid, slice: Slice)
  {
    exists j: nat :: j < |evs| && StartsAt(evs, j, p, slice) && OnlyDrops(evs, p, j + 1, |evs|)
  }

  /** The recorded wake-up was recorded last by some event and not used since. */
  ghost predicate Woken(evs: seq<Event>, p: Pid, t: nat)
  {
    exists i: nat :: i < |evs| && LatestStore(evs, i, |evs|, p, t) && OnlyMissed(evs, p, i, |evs|)
  }

  /** Event j switches to the span's process and event k switches away from it, at the span's times;
      switches away in between were dropped, the one at k was not. */
  ghost predicate Execution(evs: seq<Event>, s: Span, j: nat, k: nat)
    requires j < k < |evs|
  {
    && StartsAt(evs, j, s.pid, Slice(s.wakeup, s.start))
    && Leaves(evs[k], s.pid) && evs[k].now == s.stop && !Dropped(After(evs[..k]), evs[k])
    && OnlyDrops(evs, s.pid, j + 1, k)
  }

  /** Span number i is such an execution, emitted by its last event. */
  ghost predicate Executed(evs: seq<Event>, i: nat, s: Span)
  {
    exists j: nat, k: nat :: j < k < |evs| && Execution(evs, s, j, k) && |After(evs[..k]).emitted| == i
  }

  // What an event did depends on the run before it alone.

  lemma SameStores(evs: seq<Event>, e: Event, i: nat, hi: nat, p: Pid, t: nat)
    requires i < hi <= |evs| && LatestStore(evs, i, hi, p, t)
    ensures LatestStore(evs + [e], i, hi, p, t)
    ensures hi == |evs| && !Stores(evs + [e], hi, p) ==> LatestStore(evs + [e], i, hi + 1, p, t)
  {
    var all := evs + [e];
    forall m | i <= m < hi ensures all[m] == evs[m] && all[..m] == evs[..m] { }
    forall m | i < m < hi ensures !Stores(all, m, p) { assert !Stores(evs, m, p); }
  }

  lemma SameMissed(evs: seq<Event>, e: Event, p: Pid, lo: nat, hi: nat)
    requires hi <= |evs| && OnlyMissed(evs, p, lo, hi)
    ensures OnlyMissed(evs + [e], p, lo, hi)
    ensures hi == |evs| && (Enters(e, p) ==> Missed(evs + [e], hi, p)) ==> OnlyMissed(evs + [e], p, lo, hi + 1)
  {
    var all := evs + [e];
    assert all[|evs|] == e;
    forall m | lo <= m < hi && Enters(all[m], p) ensures Missed(all, m, p) {
      assert all[m] == evs[m] && all[..m] == evs[..m] && Missed(evs, m, p);
    }
  }

  lemma SameStart(evs: seq<Event>, e: Event, j: nat, p: Pid, slice: Slice)
    requires j < |evs| && StartsAt(evs, j, p, slice)
    ensures StartsAt(evs + [e], j, p, slice)
  {
    var i: nat :| i <= j && WokenBy(evs, i, j, p, slice.wakeup);
    SameStores(evs, e, i, j + 1, p, slice.wakeup);
    SameMissed(evs, e, p, i, j);
    assert (evs + [e])[j] == evs[j] && (evs + [e])[..j] == evs[..j];
    assert WokenBy(evs + [e], i, j, p, slice.wakeup);
  }

  lemma SameDrops(evs: seq<Event>, e: Event, p: Pid, lo: nat, hi: nat)
    requires hi <= |evs| && OnlyDrops(evs, p, lo, hi)
    ensures OnlyDrops(evs + [e], p, lo, hi)
    ensures hi == |evs| && (Leaves(e, p) ==> Dropped(After(evs), e)) ==> OnlyDrops(evs + [e], p, lo, hi + 1)
  {
    var all := evs + [e];
    assert all[..|evs|] == evs && all[|evs|] == e;
    forall m | lo <= m < hi ensures all[m] == evs[m] && all[..m] == evs[..m] { }
  }

  lemma StartedLater(evs: seq<Event>, e: Event, p: Pid, slice: Slice)
    requires Started(evs, p, slice) && (Leaves(e, p) ==> Dropped(After(evs), e))
    ensures Started(evs + [e], p, slice)
  {
    var j: nat :| j < |evs| && StartsAt(evs, j, p, slice) && OnlyDrops(evs, p, j + 1, |evs|);
    SameStart(evs, e, j, p, slice);
    SameDrops(evs, e, p, j + 1, |evs|);
  }

  lemma ExecutedLater(evs: seq<Event>, e: Event, i: nat, s: Span)
    requires Executed(evs, i, s)
    ensures Executed(evs + [e], i, s)
  {
    var j: nat, k: nat :| j < k < |evs| && Execution(evs, s, j, k) && |After(evs[..k]).emitted| == i;
    SameStart(evs, e, j, s.pid, Slice(s.wakeup, s.start));
    SameDrops(evs, e, s.pid, j + 1, k);
    assert (evs + [e])[k] == evs[k] && (evs + [e])[..k] == evs[..k];
    assert Execution(evs + [e], s, j, k);
  }

  // What holds of every record in every run.

  ghost predicate AllWoken(evs: seq<Event>, s: Trace)
  {
    forall p :: p in s.waking ==> Woken(evs, p, s.waking[p])
  }

  /** The same in the middle of the last event, before it looks at the incoming process. */
  ghost predicate AllWokenAtLast(evs: seq<Event>, s: Trace)
    requires evs != []
  {
    forall p :: p in s.waking ==> WokenAt(evs, |evs| - 1, p, s.waking[p])
  }

  ghost predicate AllStarted(evs: seq<Event>, s: Trace)
  {
    forall p :: p in s.running ==> Started(evs, p, s.running[p])
  }

  ghost predicate AllExecuted(evs: seq<Event>, s: Trace)
  {
    forall i :: 0 <= i < |s.emitted| ==> Executed(evs, i, s.emitted[i])
  }

  /** A record that the next event does not replace stays the latest one. */
  lemma WokenStays(evs: seq<Event>, e: Event, p: Pid, t: nat)
    requires Woken(evs, p, t) && !Stores(evs + [e], |evs|, p)
    ensures WokenAt(evs + [e], |evs|, p, t)
    ensures (Enters(e, p) ==> Missed(evs + [e], |evs|, p)) ==> Woken(evs + [e], p, t)
  {
    var i: nat :| i < |evs| && LatestStore(evs, i, |evs|, p, t) && OnlyMissed(evs, p, i, |evs|);
    SameStores(evs, e, i, |evs|, p, t);
    SameMissed(evs, e, p, i, |evs|);
    assert WokenBy(evs + [e], i, |evs|, p, t);
  }

  lemma WokenNow(evs: seq<Event>, p: Pid, t: nat)
    requires evs != [] && StoresAt(evs, |evs| - 1, p, t)
    ensures WokenAt(evs, |evs| - 1, p, t)
    ensures (Enters(evs[|evs| - 1], p) ==> Missed(evs, |evs| - 1, p)) ==> Woken(evs, p, t)
  {
    var n := |evs| - 1;
    assert LatestStore(evs, n, n + 1, p, t) && OnlyMissed(evs, p, n, n);
    assert WokenBy(evs, n, n, p, t);
    if Enters(evs[n], p) ==> Missed(evs, n, p) {
      assert OnlyMissed(evs, p, n, |evs|);
    }
  }

  lemma StartedAndExecutedLater(evs: seq<Event>, e: Event, s: Trace)
    ensures AllExecuted(evs, s) ==> AllExecuted(evs + [e], s)
    ensures AllStarted(evs, s) && (e.Switch? && e.prev in s.running ==> Dropped(After(evs), e)) ==>
      AllStarted(evs + [e], s)
  {
    if AllExecuted(evs, s) {
      forall i | 0 <= i < |s.emitted| ensures Executed(evs + [e], i, s.emitted[i]) {
        ExecutedLater(evs, e, i, s.emitted[i]);
      }
    }
    if AllStarted(evs, s) && (e.Switch? && e.prev in s.running ==> Dropped(After(evs), e)) {
      forall p | p in s.running ensures Started(evs + [e], p, s.running[p]) {
        StartedLater(evs, e, p, s.running[p]);
      }
    }
  }

  /** An event that is no switch, or a dropped one, replaces records only by a wake-up. */
  lemma QuietStepWoken(evs: seq<Event>, e: Event)
    requires AllWoken(evs, After(evs)) && (e.Switch? ==> Dropped(After(evs), e))
    ensures AllWoken(evs + [e], Step(After(evs), e))
  {
    var s, all := After(evs), evs + [e];
    assert all[..|evs|] == evs && all[|evs|] == e;
    var t := Step(s, e);
    forall p | p in t.waking ensures Woken(all, p, t.waking[p]) {
      if Stores(all, |evs|, p) {
        WokenNow(all, p, t.waking[p]);
      } else {
        WokenStays(evs, e, p, t.waking[p]);
      }
    }
  }

  lemma SwitchOutWoken(evs: seq<Event>, e: Event)
    requires e.Switch? && !Dropped(After(evs), e) && AllWoken(evs, After(evs))
    ensures AllWokenAtLast(evs + [e], SwitchOut(After(evs), e))
  {
    var s, all := After(evs), evs + [e];
    assert all[..|evs|] == evs && all[|evs|] == e;
    var t := SwitchOut(s, e);
    forall p | p in t.waking ensures WokenAt(all, |evs|, p, t.waking[p]) {
      if Stores(all, |evs|, p) {
        WokenNow(all, p, t.waking[p]);
      } else {
        WokenStays(evs, e, p, t.waking[p]);
      }
    }
  }

  lemma SwitchInWoken(evs: seq<Event>, e: Event, t: Trace)
    requires e.Switch? && AllWokenAtLast(evs + [e], t) && t.filter == After(evs).filter
    ensures AllWoken(evs + [e], SwitchIn(t, e))
  {
    var all := evs + [e];
    assert all[..|evs|] == evs && all[|evs|] == e;
    var u := SwitchIn(t, e);
    forall p | p in u.waking ensures Woken(all, p, u.waking[p]) {
      var i: nat :| i <= |evs| && WokenBy(all, i, |evs|, p, t.waking[p]);
      assert OnlyMissed(all, p, i, |all|);
    }
  }

  lemma SwitchInStarted(evs: seq<Event>, e: Event, t: Trace)
    requires e.Switch? && AllWokenAtLast(evs + [e], t) && AllStarted(evs + [e], t) && t.filter == After(evs).filter
    ensures AllStarted(evs + [e], SwitchIn(t, e))
  {
    var all := evs + [e];
    assert all[|evs|] == e && all[..|evs|] == evs;
    if e.next in t.filter && e.next in t.waking {
      var slice := Slice(t.waking[e.next], e.now);
      assert StartsAt(all, |evs|, e.next, slice) && OnlyDrops(all, e.next, |evs| + 1, |all|);
    }
  }

  /** A switch away emits the slice that it closes. */
  lemma SwitchOutExecuted(evs: seq<Event>, e: Event)
    requires e.Switch? && !Dropped(After(evs), e)
    requires AllStarted(evs, After(evs)) && AllExecuted(evs, After(evs))
    ensures AllExecuted(evs + [e], SwitchOut(After(evs), e)) && AllStarted(evs + [e], SwitchOut(After(evs), e))
  {
    var s, all := After(evs), evs + [e];
    StartedAndExecutedLater(evs, e, s);
    StartedAndExecutedLater(evs, e, SwitchOut(s, e));
    if e.prev in s.running {
      var slice := s.running[e.prev];
      var j: nat :| j < |evs| && StartsAt(evs, j, e.prev, slice) && OnlyDrops(evs, e.prev, j + 1, |evs|);
      SameStart(evs, e, j, e.prev, slice);
      SameDrops(evs, e, e.prev, j + 1, |evs|);
      assert all[|evs|] == e && all[..|evs|] == evs;
      assert Execution(all, Span(e.prev, slice.wakeup, slice.start, e.now), j, |evs|);
    }
  }

  lemma {:induction false} RunIsGrounded(evs: seq<Event>)
    ensures AllWoken(evs, After(evs)) && AllStarted(evs, After(evs)) && AllExecuted(evs, After(evs))
  {
    if evs != [] {
      var init, e := evs[..|evs| - 1], evs[|evs| - 1];
      assert evs == init + [e];
      RunIsGrounded(init);
      var s := After(init);
      if e.Switch? && !Dropped(s, e) {
        SwitchOutWoken(init, e);
        SwitchOutExecuted(init, e);
        SwitchInWoken(init, e, SwitchOut(s, e));
        SwitchInStarted(init, e, SwitchOut(s, e));
      } else {
        QuietStepWoken(init, e);
        StartedAndExecutedLater(init, e, s);
      }
    }
  }

  /** Every emitted span names a recorded wake-up of its process, a later switch to it (event j) while the
      process was tracked, and the switch away from it that emitted the span (event k), at exactly the
      span's three times. It is one uninterrupted execution if and only if no switch away from the
      process was dropped in between. */
  lemma SpanIsUnbrokenExactlyWhenNothingWasDropped(evs: seq<Event>, n: nat) returns (j: nat, k: nat)
    requires n < |After(evs).emitted|
    ensures j < k < |evs| && Execution(evs, After(evs).emitted[n], j, k)
    ensures |After(evs[..k]).emitted| == n
    ensures var p := After(evs).emitted[n].pid;
      (forall m :: j < m < k ==> !Leaves(evs[m], p)) <==>
      (forall m :: j < m < k ==> !(Leaves(evs[m], p) && Dropped(After(evs[..m]), evs[m])))
  {
    RunIsGrounded(evs);
    var s := After(evs).emitted[n];
    assert Executed(evs, n, s);
    j, k :| j < k < |evs| && Execution(evs, s, j, k) && |After(evs[..k]).emitted| == n;
  }

  // ----- where a span's wake-up comes from

  /** Event m emits a span of p. */
  predicate Emits(evs: seq<Event>, m: nat, p: Pid)
    requires m < |evs|
  {
    Leaves(evs[m], p) && p in After(evs[..m]).running && evs[m].slot
  }

  /** A process whose wake-up was carried over does not run in the trace until that wake-up is used. */
  lemma {:induction false} NotRunningSince(evs: seq<Event>, i: nat, m: nat, p: Pid)
    requires i < m <= |evs| && StoresCarried(evs, i, p) && OnlyMissed(evs, p, i, m)
    ensures p !in After(evs[..m]).running
  {
    NextState(evs, m - 1);
    if m - 1 == i {
      assert Enters(evs[i], p) ==> Missed(evs, i, p);
    } else {
      NotRunningSince(evs, i, m - 1, p);
      assert Enters(evs[m - 1], p) ==> Missed(evs, m - 1, p);
    }
  }

  lemma NoSpanSince(evs: seq<Event>, i: nat, j: nat, k: nat, m: nat, s: Span)
    requires i <= j < k < |evs| && i < m < k && StoresCarried(evs, i, s.pid)
    requires WokenBy(evs, i, j, s.pid, s.wakeup) && Execution(evs, s, j, k)
    ensures !Emits(evs, m, s.pid)
  {
    if m <= j {
      NotRunningSince(evs, i, m, s.pid);
    }
  }

  /** The span's wake-up (recorded by event i) is the latest one recorded before the span starts (event j):
      a wake-up at that instant, or the wake-up of the previous span of the process, carried over because
      that span ended in a preemption. It opens its first execution since then if and only if no switch to
      the process in between was dropped or made while the process was not tracked. */
  lemma SpanWakeUpIsTheLatest(evs: seq<Event>, n: nat) returns (i: nat, j: nat, k: nat)
    requires n < |After(evs).emitted|
    ensures i <= j < k < |evs| && Execution(evs, After(evs).emitted[n], j, k) && |After(evs[..k]).emitted| == n
    ensures var s := After(evs).emitted[n];
      && WokenBy(evs, i, j, s.pid, s.wakeup)
      && (StoresWake(evs, i, s.pid) ==> evs[i].now == s.wakeup)
      && (StoresCarried(evs, i, s.pid) ==>
            && (exists start :: After(evs[..i + 1]).emitted ==
                  After(evs[..i]).emitted + [Span(s.pid, s.wakeup, start, evs[i].now)])
            && (forall m :: i < m < k ==> !Emits(evs, m, s.pid)))
      && ((forall m :: i < m < j ==> !Enters(evs[m], s.pid)) <==>
          (forall m :: i < m < j ==> !(Enters(evs[m], s.pid) && Missed(evs, m, s.pid))))
  {
    j, k := SpanIsUnbrokenExactlyWhenNothingWasDropped(evs, n);
    var s := After(evs).emitted[n];
    i :| i <= j && WokenBy(evs, i, j, s.pid, s.wakeup);
    if StoresCarried(evs, i, s.pid) {
      NextState(evs, i);
      SwitchOutEmits(After(evs[..i]), evs[i]);
      assert After(evs[..i + 1]).emitted ==
        After(evs[..i]).emitted + [Span(s.pid, s.wakeup, After(evs[..i]).running[s.pid].start, evs[i].now)];
      forall m | i < m < k ensures !Emits(evs, m, s.pid) {
        NoSpanSince(evs, i, j, k, m, s);
      }
    }
  }

  /** A span may cover time off the CPU: the switch away at 3 finds no slot, the process runs again
      from 5 on without a recorded wake-up, and the span emitted at 9 starts at 2. */
  lemma DroppedSlotJoinsTwoExecutions()
    ensures After([AddPid(1), Waking(1, 1, true), Switch(0, 1, 2, false, true, true, true),
                   Switch(1, 0, 3, false, false, true, true), Switch(0, 1, 5, false, true, true, true),
                   Switch(1, 0, 9, false, true, true, true)]).emitted == [Span(1, 1, 2, 9)]
  {
    var evs := [AddPid(1), Waking(1, 1, true), Switch(0, 1, 2, false, true, true, true),
                Switch(1, 0, 3, false, false, true, true), Switch(0, 1, 5, false, true, true, true),
                Switch(1, 0, 9, false, true, true, true)];
    assert evs[..0] == [] && evs[..6] == evs;
    NextState(evs, 0);
    NextState(evs, 1);
    NextState(evs, 2);
    var running := Trace({1}, map[], map[1 := Slice(1, 2)], []);
    assert After(evs[..3]) == running;
    NextState(evs, 3);
    NextState(evs, 4);
    NextState(evs, 5);
    assert After(evs[..5]) == running;
  }

  /** A wake-up may be stale: process 1 wakes at 3 and runs from 4 to 6, but the switch at 4 finds no slot
      for process 2, so the span emitted for the execution from 8 to 9 still names the wake-up at 3. */
  lemma DroppedSlotKeepsStaleWakeUp()
    ensures After([AddPid(1), AddPid(2), Waking(2, 1, true), Switch(0, 2, 2, false, true, true, true),
                   Waking(1, 3, true), Switch(2, 1, 4, false, false, true, true),
                   Switch(1, 0, 6, false, true, true, true), Switch(0, 1, 8, false, true, true, true),
                   Switch(1, 0, 9, false, true, true, true)]).emitted == [Span(1, 3, 8, 9)]
  {
    var first := [AddPid(1), AddPid(2), Waking(2, 1, true), Switch(0, 2, 2, false, true, true, true),
                  Waking(1, 3, true)];
    var woken := Trace({1, 2}, map[1 := 3], map[2 := Slice(1, 2)], []);
    assert After(first) == woken by { BothWoken(); }
    var e5, e6 := Switch(2, 1, 4, false, false, true, true), Switch(1, 0, 6, false, true, true, true);
    Then(first, e5, woken);
    Then(first + [e5], e6, woken);
    var e7, e8 := Switch(0, 1, 8, false, true, true, true), Switch(1, 0, 9, false, true, true, true);
    var running := Trace({1, 2}, map[], map[2 := Slice(1, 2), 1 := Slice(3, 8)], []);
    Then(first + [e5] + [e6], e7, running);
    Then(first + [e5] + [e6] + [e7], e8, Step(running, e8));
    assert first + [e5] + [e6] + [e7] + [e8] ==
      [AddPid(1), AddPid(2), Waking(2, 1, true), Switch(0, 2, 2, false, true, true, true), Waking(1, 3, true),
       e5, e6, e7, e8];
  }

  lemma Then(evs: seq<Event>, e: Event, t: Trace)
    requires Step(After(evs), e) == t
    ensures After(evs + [e]) == t
  {
    Runs.ReachedNext(Step, START, evs, e);
  }

  lemma BothWoken()
    ensures After([AddPid(1), AddPid(2), Waking(2, 1, true), Switch(0, 2, 2, false, true, true, true),
                   Waking(1, 3, true)]) == Trace({1, 2}, map[1 := 3], map[2 := Slice(1, 2)], [])
  {
    var evs := [AddPid(1), AddPid(2), Waking(2, 1, true), Switch(0, 2, 2, false, true, true, true),
                Waking(1, 3, true)];
    assert evs[..0] == [] && evs[..5] == evs;
    NextState(evs, 0);
    NextState(evs, 1);
    NextState(evs, 2);
    NextState(evs, 3);
    NextState(evs, 4);
  }

  // ----- nothing is lost without cause

  predicate Mentions(e: Event, p: Pid)
  {
    (e.Waking? && e.pid == p) || (e.Switch? && (e.prev == p || e.next == p))
  }

  /** Steps from index lo on that do not concern p leave both of p's records as they were. */
  lemma {:induction false} Untouched(evs: seq<Event>, lo: nat, p: Pid)
    requires lo <= |evs| && forall i :: lo <= i < |evs| ==> !Mentions(evs[i], p)
    ensures var s, t := After(evs[..lo]), After(evs);
      && (p in s.waking <==> p in t.waking) && (p in s.waking ==> s.waking[p] == t.waking[p])
      && (p in s.running <==> p in t.running) && (p in s.running ==> s.running[p] == t.running[p])
  {
    if lo == |evs| {
      assert evs[..lo] == evs;
    } else {
      var init := evs[..|evs| - 1];
      assert init[..lo] == evs[..lo];
      Untouched(init, lo, p);
    }
  }

  /** A recorded wake-up and the next switch to the process open a slice with those two times, if and only
      if the map has room for it; the wake-up is used up either way. */
  lemma SliceOpens(evs: seq<Event>, i: nat, j: nat, p: Pid)
    requires i <= j < |evs| && p in After(evs[..i]).waking
    requires Enters(evs[j], p) && evs[j].prev != p
    requires p in After(evs[..j]).filter && !Dropped(After(evs[..j]), evs[j])
    requires forall l :: i <= l < j ==> !Mentions(evs[l], p)
    ensures var s, slice := After(evs[..j + 1]), Slice(After(evs[..i]).waking[p], evs[j].now);
      && p !in s.waking
      && (if evs[j].roomRunning || p in After(evs[..i]).running then p in s.running && s.running[p] == slice
          else p !in s.running)
  {
    var atJ := evs[..j];
    assert atJ[..i] == evs[..i];
    Untouched(atJ, i, p);
    NextState(evs, j);
    SwitchInRecords(After(atJ), evs[j]);
  }

  /** An open slice and the next switch away from the process emit one span; a task that was
      preempted keeps its wake-up for the slice in which it resumes. */
  lemma SliceCloses(evs: seq<Event>, j: nat, k: nat, p: Pid)
    requires j < k < |evs| && p in After(evs[..j + 1]).running
    requires evs[k].Switch? && evs[k].prev == p && evs[k].slot
    requires forall l :: j < l < k ==> !Mentions(evs[l], p)
    ensures var slice, s := After(evs[..j + 1]).running[p], After(evs[..k + 1]);
      && s.emitted == After(evs[..k]).emitted + [Span(p, slice.wakeup, slice.start, evs[k].now)]
      && (evs[k].next != p ==> p !in s.running)
      && (evs[k].next != p && evs[k].preempted && evs[k].roomWaking ==>
            p in s.waking && s.waking[p] == slice.wakeup)
  {
    var atK := evs[..k];
    assert atK[..j + 1] == evs[..j + 1];
    Untouched(atK, j + 1, p);
    NextState(evs, k);
    SwitchOutEmits(After(atK), evs[k]);
  }

  /** A recorded wake-up, the next switch to the process and the next switch away from it produce
      exactly one span with those three times, whatever happens to other processes in between. */
  lemma SliceIsEmitted(evs: seq<Event>, i: nat, j: nat, k: nat, p: Pid)
    requires i < j < k < |evs|
    requires evs[i].Waking? && evs[i].pid == p && evs[i].room && p in After(evs[..i]).filter
    requires evs[j].Switch? && evs[j].next == p != evs[j].prev && evs[j].roomRunning
    requires p in After(evs[..j]).filter && !Dropped(After(evs[..j]), evs[j])
    requires evs[k].Switch? && evs[k].prev == p && evs[k].slot
    requires forall l :: i < l < j || j < l < k ==> !Mentions(evs[l], p)
    ensures After(evs[..k + 1]).emitted ==
            After(evs[..k]).emitted + [Span(p, evs[i].now, evs[j].now, evs[k].now)]
  {
    NextState(evs, i);
    SliceOpens(evs, i + 1, j, p);
    SliceCloses(evs, j, k, p);
  }

  lemma NextState(evs: seq<Event>, i: nat)
    requires i < |evs|
    ensures After(evs[..i + 1]) == Step(After(evs[..i]), evs[i])
  {
    assert evs[..i + 1][..i] == evs[..i];
  }

  lemma SwitchInRecords(s: Trace, e: Event)
    requires e.Switch? && e.prev != e.next && !Dropped(s, e) && e.next in s.filter && e.next in s.waking
    ensures var t := Step(s, e);
      && e.next !in t.waking
      && (if e.roomRunning || e.next in s.running
          then e.next in t.running && t.running[e.next] == Slice(s.waking[e.next], e.now)
          else e.next !in t.running)
  {
  }

  lemma SwitchOutEmits(s: Trace, e: Event)
    requires e.Switch? && e.prev in s.running && e.slot
    ensures var slice, t := s.running[e.prev], Step(s, e);
      && t.emitted == s.emitted + [Span(e.prev, slice.wakeup, slice.start, e.now)]
      && (e.next != e.prev ==> e.prev !in t.running)
      && (e.next != e.prev && e.preempted && e.roomWaking ==>
            e.prev in t.waking && t.waking[e.prev] == slice.wakeup)
  {
  }

  // ----- the tracepoints, updating the maps in place

  class Tracer {
    var filter: set<Pid>
    var waking: map<Pid, nat>
    var running: map<Pid, Slice>
    var emitted: seq<Span>

    ghost function State(): Trace
      reads this
    {
      Trace(filter, waking, running, emitted)
    }

    constructor ()
      ensures State() == START
    {
      filter, waking, running, emitted := {}, map[], map[], [];
    }

    method OnWaking(pid: Pid, now: nat, room: bool)
      modifies this
      ensures State() == Step(old(State()), Waking(pid, now, room))
    {
      if pid !in filter {
        return;
      }
      if pid in waking || room {
        waking := waking[pid := now];
      }
    }

    method OnSwitch(prev: Pid, next: Pid, now: nat, preempted: bool, slot: bool, roomWaking: bool, roomRunning: bool)
      modifies this
      ensures State() == Step(old(State()), Switch(prev, next, now, preempted, slot, roomWaking, roomRunning))
    {
      if prev in running {
        var slice := running[prev];
        if !slot {
          return;
        }
        emitted := emitted + [Span(prev, slice.wakeup, slice.start, now)];
        if preempted && (prev in waking || roomWaking) {
          waking := waking[prev := slice.wakeup];
        }
        running := running - {prev};
      }
      if next in filter && next in waking {
        if next in running || roomRunning {
          running := running[next := Slice(waking[next], now)];
        }
        waking := waking - {next};
      }
    }

    method Track(pid: Pid)
      modifies this
      ensures State() == Step(old(State()), AddPid(pid))
    {
      filter := filter + {pid};
    }

    method Untrack(pid: Pid)
      modifies this
      ensures State() == Step(old(State()), DelPid(pid))
    {
      filter := filter - {pid};
    }
  }
}
