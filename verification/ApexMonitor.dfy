/**
 Fault windows of one monitored Apex.OS task: deadline misses are counted in windows of one
 period, a full window is reported, and a periodic timer clears windows that have run out.
 Each handler runs as one step; clock readings are inputs.
 */
module ApexMonitor {
  import Runs

  datatype Limits = Limits(periodUs: nat, allowable: nat)

  /** timeUs is the first miss of the open window; 0 means that no window is open. */
  datatype Counters = Counters(count: nat, timeUs: nat)

  const CLEARED := Counters(0, 0)

  /** known is false for a fault whose process cannot be found, which is dropped. */
  datatype Event =
    | Fault(now: nat, known: bool)
    | Tick(now: nat)
    | Reset(now: nat)

  // ----- one step

  /** More than a period since the window opened. A clock behind the window's start gives a huge
      unsigned difference, which also counts as more than a period. */
  predicate RunOut(c: Counters, now: nat, lim: Limits)
  {
    now < c.timeUs || now - c.timeUs > lim.periodUs
  }

  predicate OpensWindow(c: Counters, now: nat, lim: Limits)
  {
    c.timeUs == 0 || RunOut(c, now, lim)
  }

  function CountMiss(c: Counters, now: nat, lim: Limits): Counters
  {
    if OpensWindow(c, now, lim) then Counters(1, now) else Counters(c.count + 1, c.timeUs)
  }

  predicate Reports(c: Counters, e: Event, lim: Limits)
  {
    e.Fault? && e.known && CountMiss(c, e.now, lim).count >= lim.allowable
  }

  function Step(c: Counters, e: Event, lim: Limits): Counters
  {
    match e
    case Fault(now, known) =>
      if !known then c
      else if Reports(c, e, lim) then CLEARED
      else CountMiss(c, now, lim)
    case Tick(now) => if c.timeUs != 0 && RunOut(c, now, lim) then CLEARED else c
    case Reset(_) => CLEARED
  }

  // ----- runs

  function StepWith(lim: Limits): (Counters, Event) -> Counters
  {
    (c, e) => Step(c, e, lim)
  }

  function After(evs: seq<Event>, lim: Limits): Counters
  {
    Runs.Reached(StepWith(lim), CLEARED, evs)
  }

  /** Whether the event at index i of the run is reported. */
  predicate ReportsAt(evs: seq<Event>, i: nat, lim: Limits)
    requires i < |evs|
  {
    Reports(After(evs[..i], lim), evs[i], lim)
  }

  /** Clock readings are positive and never go back. */
  ghost predicate Monotone(evs: seq<Event>)
  {
    (forall i :: 0 <= i < |evs| ==> evs[i].now > 0) &&
    (forall i, j :: 0 <= i < j < |evs| ==> evs[i].now <= evs[j].now)
  }

  /** The number of misses that fills a window. */
  function Needed(lim: Limits): nat
  {
    if lim.allowable == 0 then 1 else lim.allowable
  }

  predicate IsMiss(e: Event)
  {
    e.Fault? && e.known
  }

  lemma RunExtends(evs: seq<Event>, e: Event, lim: Limits)
    ensures After(evs + [e], lim) == Step(After(evs, lim), e, lim)
    ensures ReportsAt(evs + [e], |evs|, lim) == Reports(After(evs, lim), e, lim)
    ensures forall i: nat :: i < |evs| ==> ReportsAt(evs + [e], i, lim) == ReportsAt(evs, i, lim)
  {
    assert (evs + [e])[..|evs|] == evs;
    forall i: nat | i < |evs| ensures ReportsAt(evs + [e], i, lim) == ReportsAt(evs, i, lim) {
      assert (evs + [e])[..i] == evs[..i];
    }
  }

  // ----- a report is justified by a full window

  /** The window w after event number n, given the counters before it. */
  function NextWindow(w: seq<nat>, c: Counters, e: Event, n: nat, lim: Limits): seq<nat>
  {
    match e
    case Fault(now, known) =>
      if !known then w
      else if Reports(c, e, lim) then []
      else if OpensWindow(c, now, lim) then [n]
      else w + [n]
    case Tick(now) => if c.timeUs != 0 && RunOut(c, now, lim) then [] else w
    case Reset(_) => []
  }

  /** Indices of the misses counted in the window open after the run. */
  function Window(evs: seq<Event>, lim: Limits): seq<nat>
  {
    if evs == [] then [] else
      var init := evs[..|evs| - 1];
      NextWindow(Window(init, lim), After(init, lim), evs[|evs| - 1], |init|, lim)
  }

  /** w lists distinct misses, all within one period of the first, with no report and no reset
      between the first and the end of the run. */
  ghost predicate OneWindow(evs: seq<Event>, w: seq<nat>, upTo: nat, lim: Limits)
    requires upTo <= |evs|
  {
    Misses(evs, w, upTo, lim) && (w != [] ==> Quiet(evs, w[0], upTo, lim))
  }

  ghost predicate Misses(evs: seq<Event>, w: seq<nat>, upTo: nat, lim: Limits)
    requires upTo <= |evs|
  {
    && (forall i :: 0 <= i < |w| ==> w[i] < upTo && IsMiss(evs[w[i]]))
    && (forall i, j :: 0 <= i < j < |w| ==> w[i] < w[j])
    && (forall i :: 0 <= i < |w| ==> evs[w[0]].now <= evs[w[i]].now <= evs[w[0]].now + lim.periodUs)
  }

  ghost predicate Describes(c: Counters, w: seq<nat>, evs: seq<Event>, lim: Limits)
  {
    && c.count == |w| < Needed(lim)
    && OneWindow(evs, w, |evs|, lim)
    && (c.timeUs == 0 <==> w == [])
    && (w != [] ==> c.timeUs == evs[w[0]].now)
  }

  lemma {:induction false} CountersDescribeWindow(evs: seq<Event>, lim: Limits)
    requires Monotone(evs)
    ensures Describes(After(evs, lim), Window(evs, lim), evs, lim)
  {
    if evs != [] {
      var init, e := evs[..|evs| - 1], evs[|evs| - 1];
      assert evs == init + [e];
      CountersDescribeWindow(init, lim);
      StepDescribesWindow(init, e, Window(init, lim), lim);
    }
  }

  lemma StepDescribesWindow(evs: seq<Event>, e: Event, w: seq<nat>, lim: Limits)
    requires Describes(After(evs, lim), w, evs, lim)
    requires e.now > 0 && forall i :: 0 <= i < |evs| ==> evs[i].now <= e.now
    ensures var c := After(evs, lim);
      Describes(Step(c, e, lim), NextWindow(w, c, e, |evs|, lim), evs + [e], lim)
  {
    var c, all := After(evs, lim), evs + [e];
    if !e.Reset? && !Reports(c, e, lim) {
      WindowStaysOpen(evs, e, w, lim);
      assert w != [] ==> all[w[0]] == evs[w[0]];
      assert all[|evs|] == e;
    }
  }

  /** No report and no reset from index lo on. */
  ghost predicate Quiet(evs: seq<Event>, lo: nat, upTo: nat, lim: Limits)
    requires upTo <= |evs|
  {
    forall i :: lo <= i < upTo ==> !evs[i].Reset? && !ReportsAt(evs, i, lim)
  }

  lemma StaysQuiet(evs: seq<Event>, e: Event, lo: nat, lim: Limits)
    requires Quiet(evs, lo, |evs|, lim) && !e.Reset? && !Reports(After(evs, lim), e, lim)
    ensures Quiet(evs + [e], lo, |evs| + 1, lim)
  {
    RunExtends(evs, e, lim);
    var next := evs + [e];
    forall i | lo <= i < |evs| + 1 ensures !next[i].Reset? && !ReportsAt(next, i, lim) {
      if i < |evs| {
        assert next[i] == evs[i] && !ReportsAt(evs, i, lim);
      }
    }
  }

  lemma MissesStay(evs: seq<Event>, e: Event, w: seq<nat>, lim: Limits)
    requires Misses(evs, w, |evs|, lim)
    ensures Misses(evs + [e], w, |evs| + 1, lim)
    ensures IsMiss(e) && (w != [] ==> evs[w[0]].now <= e.now <= evs[w[0]].now + lim.periodUs) ==>
      Misses(evs + [e], w + [|evs|], |evs| + 1, lim)
  {
  }

  /** An event that neither reports nor resets leaves an open window a window, and a miss within a
      period of its first miss may join it. */
  lemma WindowStaysOpen(evs: seq<Event>, e: Event, w: seq<nat>, lim: Limits)
    requires OneWindow(evs, w, |evs|, lim)
    requires !e.Reset? && !Reports(After(evs, lim), e, lim)
    ensures OneWindow(evs + [e], w, |evs| + 1, lim)
    ensures IsMiss(e) ==> OneWindow(evs + [e], [|evs|], |evs| + 1, lim)
    ensures IsMiss(e) && w != [] && evs[w[0]].now <= e.now <= evs[w[0]].now + lim.periodUs ==>
      OneWindow(evs + [e], w + [|evs|], |evs| + 1, lim)
  {
    MissesStay(evs, e, w, lim);
    MissesStay(evs, e, [], lim);
    assert [] + [|evs|] == [|evs|];
    StaysQuiet(evs, e, |evs|, lim);
    if w != [] {
      StaysQuiet(evs, e, w[0], lim);
    }
  }

  /** Soundness: a reported event is the last of exactly max(1, allowable) distinct misses that lie
      within one period of the first of them, none of which was counted for an earlier report. */
  lemma ReportIsJustified(evs: seq<Event>, i: nat, lim: Limits) returns (w: seq<nat>)
    requires Monotone(evs) && i < |evs| && ReportsAt(evs, i, lim)
    ensures |w| == Needed(lim) && w[|w| - 1] == i
    ensures OneWindow(evs, w[..|w| - 1], i, lim)
    ensures IsMiss(evs[i]) && evs[w[0]].now <= evs[i].now <= evs[w[0]].now + lim.periodUs
  {
    var pre := evs[..i];
    CountersDescribeWindow(pre, lim);
    var c := After(pre, lim);
    if OpensWindow(c, evs[i].now, lim) {
      w := [i];
    } else {
      w := Window(pre, lim) + [i];
      assert w[..|w| - 1] == Window(pre, lim);
      forall k | w[0] <= k < i ensures !evs[k].Reset? && !ReportsAt(evs, k, lim) {
        assert pre[..k] == evs[..k] && pre[k] == evs[k] && !ReportsAt(pre, k, lim);
      }
    }
  }

  // ----- each miss is spent at most once

  function MissCount(evs: seq<Event>): nat
  {
    if evs == [] then 0
    else MissCount(evs[..|evs| - 1]) + if IsMiss(evs[|evs| - 1]) then 1 else 0
  }

  function ReportCount(evs: seq<Event>, lim: Limits): nat
  {
    if evs == [] then 0
    else ReportCount(evs[..|evs| - 1], lim) + if ReportsAt(evs, |evs| - 1, lim) then 1 else 0
  }

  /** Conservation: with or without a monotone clock, every report uses up max(1, allowable) misses
      of its own, and the open window holds misses that no report has used. */
  lemma {:induction false} ReportsAreBounded(evs: seq<Event>, lim: Limits)
    ensures ReportCount(evs, lim) * Needed(lim) + After(evs, lim).count <= MissCount(evs)
    ensures After(evs, lim).count < Needed(lim)
  {
    if evs != [] {
      var init := evs[..|evs| - 1];
      ReportsAreBounded(init, lim);
      assert (ReportCount(init, lim) + 1) * Needed(lim) == ReportCount(init, lim) * Needed(lim) + Needed(lim);
    }
  }

  // ----- the periodic timer is invisible

  function WithoutTicks(evs: seq<Event>): seq<Event>
  {
    if evs == [] then []
    else WithoutTicks(evs[..|evs| - 1]) + if evs[|evs| - 1].Tick? then [] else [evs[|evs| - 1]]
  }

  /** For every event other than a timer tick, in order: was it reported? */
  function Outcomes(evs: seq<Event>, lim: Limits): seq<bool>
  {
    if evs == [] then []
    else Outcomes(evs[..|evs| - 1], lim) + if evs[|evs| - 1].Tick? then [] else [ReportsAt(evs, |evs| - 1, lim)]
  }

  /** The ticked counters are the unticked ones, or cleared where those have run out. */
  ghost predicate Shadows(ticked: Counters, plain: Counters, now: nat, lim: Limits)
  {
    plain.timeUs <= now && (ticked == plain || (ticked == CLEARED && RunOut(plain, now, lim)))
  }

  /** One event keeps the relation; both sides give the same answer to anything but a tick. */
  lemma ShadowStep(ticked: Counters, plain: Counters, e: Event, now: nat, lim: Limits)
    requires Shadows(ticked, plain, e.now, lim) && e.now <= now
    ensures Shadows(Step(ticked, e, lim), if e.Tick? then plain else Step(plain, e, lim), now, lim)
    ensures Reports(ticked, e, lim) == Reports(plain, e, lim)
  {
  }

  lemma {:induction false} TicksOnlyClearEarly(evs: seq<Event>, now: nat, lim: Limits)
    requires Monotone(evs) && (evs != [] ==> evs[|evs| - 1].now <= now)
    ensures Shadows(After(evs, lim), After(WithoutTicks(evs), lim), now, lim)
    ensures Outcomes(evs, lim) == Outcomes(WithoutTicks(evs), lim)
  {
    if evs != [] {
      var init, e := evs[..|evs| - 1], evs[|evs| - 1];
      TicksOnlyClearEarly(init, e.now, lim);
      var plain := WithoutTicks(init);
      ShadowStep(After(init, lim), After(plain, lim), e, now, lim);
      if e.Tick? {
        assert WithoutTicks(evs) == plain;
        assert Outcomes(evs, lim) == Outcomes(init, lim);
      } else {
        assert WithoutTicks(evs) == plain + [e];
        assert (plain + [e])[..|plain|] == plain;
      }
    }
  }

  /** Inserting or removing periodic timer steps never changes which events are reported. */
  lemma TimerStepsAreInvisible(a: seq<Event>, b: seq<Event>, lim: Limits)
    requires Monotone(a) && Monotone(b) && WithoutTicks(a) == WithoutTicks(b)
    ensures Outcomes(a, lim) == Outcomes(b, lim)
  {
    TicksOnlyClearEarly(a, if a == [] then 0 else a[|a| - 1].now, lim);
    TicksOnlyClearEarly(b, if b == [] then 0 else b[|b| - 1].now, lim);
  }

  /** What the timer does clear: after a tick the counters are cleared if the window's first miss lies more
      than a period back, and unchanged otherwise. */
  lemma TickClearsExactlyRunOutWindows(evs: seq<Event>, now: nat, lim: Limits)
    requires Monotone(evs + [Tick(now)])
    ensures Describes(After(evs, lim), Window(evs, lim), evs, lim)
    ensures var w := Window(evs, lim);
      After(evs + [Tick(now)], lim) ==
      if w != [] && now > evs[w[0]].now + lim.periodUs then CLEARED else After(evs, lim)
  {
    var all := evs + [Tick(now)];
    assert all[|evs|] == Tick(now) && forall i :: 0 <= i < |evs| ==> all[i] == evs[i];
    CountersDescribeWindow(evs, lim);
    RunExtends(evs, Tick(now), lim);
  }

  // ----- when a burst of misses is reported

  ghost predicate Sorted(ts: seq<nat>)
  {
    forall i, j :: 0 <= i < j < |ts| ==> ts[i] <= ts[j]
  }

  function MissWith(lim: Limits): (Counters, nat) -> Counters
  {
    (c: Counters, t: nat) => Step(c, Fault(t, true), lim)
  }

  /** The counters after misses at the given times. */
  function AfterBurst(c: Counters, ts: seq<nat>, lim: Limits): Counters
  {
    Runs.Reached(MissWith(lim), c, ts)
  }

  /** Misses already in the window that the next miss, at time t, would join. */
  function Carried(c: Counters, t: nat, lim: Limits): nat
  {
    if OpensWindow(c, t, lim) then 0 else c.count
  }

  function Anchor(c: Counters, t: nat, lim: Limits): nat
  {
    if OpensWindow(c, t, lim) then t else c.timeUs
  }

  /** A burst that stays within a period of its window's first miss fills that window and no other. */
  lemma {:induction false} BurstInOneWindow(c: Counters, ts: seq<nat>, lim: Limits)
    requires ts != [] && 0 < ts[0] && c.timeUs <= ts[0] && Sorted(ts)
    requires ts[|ts| - 1] <= Anchor(c, ts[0], lim) + lim.periodUs
    requires Carried(c, ts[0], lim) + |ts| <= Needed(lim)
    ensures Reports(AfterBurst(c, ts[..|ts| - 1], lim), Fault(ts[|ts| - 1], true), lim)
            <==> Carried(c, ts[0], lim) + |ts| == Needed(lim)
    ensures Carried(c, ts[0], lim) + |ts| < Needed(lim) ==>
      AfterBurst(c, ts, lim) == Counters(Carried(c, ts[0], lim) + |ts|, Anchor(c, ts[0], lim))
  {
    if |ts| == 1 {
      assert ts[..0] == [];
    } else {
      var init := ts[..|ts| - 1];
      BurstInOneWindow(c, init, lim);
      JoinsWindow(AfterBurst(c, init, lim), ts[|ts| - 1], lim);
    }
  }

  lemma JoinsWindow(c: Counters, t: nat, lim: Limits)
    requires 0 < c.timeUs <= t <= c.timeUs + lim.periodUs
    ensures CountMiss(c, t, lim) == Counters(c.count + 1, c.timeUs)
    ensures Reports(c, Fault(t, true), lim) <==> c.count + 1 >= lim.allowable
  {
  }

  /** The i-th miss of a burst is reported. */
  predicate ReportsInBurst(c: Counters, ts: seq<nat>, i: nat, lim: Limits)
    requires i < |ts|
  {
    Reports(AfterBurst(c, ts[..i], lim), Fault(ts[i], true), lim)
  }

  ghost predicate ReportsSome(c: Counters, ts: seq<nat>, lim: Limits)
  {
    exists i: nat :: i < |ts| && ReportsInBurst(c, ts, i, lim)
  }

  ghost predicate ReportsFrom(evs: seq<Event>, lo: nat, lim: Limits)
  {
    exists i: nat :: lo <= i < |evs| && ReportsAt(evs, i, lim)
  }

  /** As many misses as fill a window, all within one period. */
  ghost predicate DenseBurst(ts: seq<nat>, lim: Limits)
  {
    Sorted(ts) && |ts| == Needed(lim) && 0 < ts[0] && ts[|ts| - 1] <= ts[0] + lim.periodUs
  }

  /** The first miss of a burst after the deadline, at or before the given one. */
  lemma {:induction false} FirstLate(ts: seq<nat>, deadline: nat, k: nat) returns (j: nat)
    requires k < |ts| && ts[0] <= deadline < ts[k]
    ensures 0 < j <= k && ts[j - 1] <= deadline < ts[j]
  {
    if ts[k - 1] > deadline {
      j := FirstLate(ts, deadline, k - 1);
    } else {
      j := k;
    }
  }

  lemma ReportsAtLast(c: Counters, ts: seq<nat>, i: nat, lim: Limits)
    requires i < |ts| && Sorted(ts) && 0 < ts[0] && c.timeUs <= ts[0]
    requires ts[i] <= Anchor(c, ts[0], lim) + lim.periodUs && Carried(c, ts[0], lim) + i < Needed(lim)
    ensures ReportsInBurst(c, ts, i, lim) <==> Carried(c, ts[0], lim) + i + 1 == Needed(lim)
    ensures Carried(c, ts[0], lim) + i + 1 < Needed(lim) ==>
      AfterBurst(c, ts[..i + 1], lim) == Counters(Carried(c, ts[0], lim) + i + 1, Anchor(c, ts[0], lim))
  {
    assert ts[..i + 1][..i] == ts[..i];
    BurstInOneWindow(c, ts[..i + 1], lim);
  }

  /** A window that runs out at the j-th miss of a burst gives way to one that the rest cannot fill. */
  lemma RestIsNotReported(c: Counters, ts: seq<nat>, j: nat, i: nat, lim: Limits)
    requires DenseBurst(ts, lim) && 0 < j <= i < |ts|
    requires var d := AfterBurst(c, ts[..j], lim); d.timeUs <= ts[j] && OpensWindow(d, ts[j], lim)
    ensures !ReportsInBurst(c, ts, i, lim)
  {
    var d, rest := AfterBurst(c, ts[..j], lim), ts[j..];
    assert ts[0] <= ts[j] && ts[i] <= ts[|ts| - 1] && rest[i - j] == ts[i];
    ReportsAtLast(d, rest, i - j, lim);
    ReportInRest(c, ts, j, i, lim);
  }

  lemma ReportInRest(c: Counters, ts: seq<nat>, j: nat, i: nat, lim: Limits)
    requires j <= i < |ts|
    ensures ReportsInBurst(c, ts, i, lim) == ReportsInBurst(AfterBurst(c, ts[..j], lim), ts[j..], i - j, lim)
  {
    var upTo := ts[..i];
    assert upTo[..j] == ts[..j] && upTo[j..] == ts[j..][..i - j];
    assert upTo[..j] + upTo[j..] == upTo;
    Runs.ReachedInParts(MissWith(lim), c, upTo[..j], upTo[j..]);
  }

  lemma SplitBurstIsNotReported(c: Counters, ts: seq<nat>, i: nat, lim: Limits)
    requires DenseBurst(ts, lim) && i < |ts|
    requires 0 < c.count < Needed(lim) && 0 < c.timeUs <= ts[0] <= c.timeUs + lim.periodUs
    requires ts[Needed(lim) - c.count - 1] > c.timeUs + lim.periodUs
    ensures !ReportsInBurst(c, ts, i, lim)
  {
    var j := FirstLate(ts, c.timeUs + lim.periodUs, Needed(lim) - c.count - 1);
    if i < j {
      assert ts[i] <= ts[j - 1];
      ReportsAtLast(c, ts, i, lim);
    } else {
      ReportsAtLast(c, ts, j - 1, lim);
      RestIsNotReported(c, ts, j, i, lim);
    }
  }

  /** Exactly when enough misses within one period are reported, from any counters: unless the window
      that is open when they begin takes in some of them and runs out before it is full. */
  lemma DenseBurstIsReportedExactlyWhen(c: Counters, ts: seq<nat>, lim: Limits)
    requires c.count < Needed(lim) && (c.timeUs == 0 <==> c.count == 0)
    requires DenseBurst(ts, lim) && c.timeUs <= ts[0]
    ensures ReportsSome(c, ts, lim) <==>
            OpensWindow(c, ts[0], lim) || ts[Needed(lim) - c.count - 1] <= c.timeUs + lim.periodUs
  {
    if OpensWindow(c, ts[0], lim) {
      ReportsAtLast(c, ts, |ts| - 1, lim);
    } else if ts[Needed(lim) - c.count - 1] <= c.timeUs + lim.periodUs {
      ReportsAtLast(c, ts, Needed(lim) - c.count - 1, lim);
    } else {
      forall i: nat | i < |ts| ensures !ReportsInBurst(c, ts, i, lim) { SplitBurstIsNotReported(c, ts, i, lim); }
    }
  }

  /** The times of the misses among the events. */
  function MissTimes(evs: seq<Event>): seq<nat>
  {
    if evs == [] then []
    else MissTimes(evs[..|evs| - 1]) + if IsMiss(evs[|evs| - 1]) then [evs[|evs| - 1].now] else []
  }

  ghost predicate NoReset(evs: seq<Event>)
  {
    forall i :: 0 <= i < |evs| ==> !evs[i].Reset?
  }

  /** The same for runs: however timer steps and dropped faults are mixed with the misses of a dense burst,
      it goes unreported if and only if it joins the window open before it and that window's period ends
      before it is full. */
  lemma {:induction false} DenseMissesAreReportedExactlyWhen(evs: seq<Event>, tail: seq<Event>, lim: Limits)
    requires Monotone(evs + tail) && NoReset(tail) && DenseBurst(MissTimes(tail), lim)
    ensures Describes(After(evs, lim), Window(evs, lim), evs, lim)
    ensures var w, ts := Window(evs, lim), MissTimes(tail);
      ReportsFrom(evs + tail, |evs|, lim) <==>
      || w == []
      || ts[0] > evs[w[0]].now + lim.periodUs
      || ts[Needed(lim) - |w| - 1] <= evs[w[0]].now + lim.periodUs
  {
    BeforeTail(evs, tail, lim);
    TailReports(evs, tail, lim);
    BurstAfterWindow(After(evs, lim), Window(evs, lim), evs, MissTimes(tail), lim);
  }

  lemma TailReports(evs: seq<Event>, tail: seq<Event>, lim: Limits)
    requires Monotone(evs + tail) && NoReset(tail)
    ensures ReportsFrom(evs + tail, |evs|, lim) <==> ReportsSome(After(evs, lim), MissTimes(tail), lim)
  {
    var all := evs + tail;
    TailActsAsBurst(evs, tail, if all == [] then 0 else all[|all| - 1].now, lim);
  }

  lemma BurstAfterWindow(c: Counters, w: seq<nat>, evs: seq<Event>, ts: seq<nat>, lim: Limits)
    requires DenseBurst(ts, lim) && Describes(c, w, evs, lim) && c.timeUs <= ts[0]
    ensures ReportsSome(c, ts, lim) <==>
      || w == []
      || ts[0] > evs[w[0]].now + lim.periodUs
      || ts[Needed(lim) - |w| - 1] <= evs[w[0]].now + lim.periodUs
  {
    DenseBurstIsReportedExactlyWhen(c, ts, lim);
  }

  lemma {:induction false} MissIsEvent(evs: seq<Event>, i: nat) returns (k: nat)
    requires i < |MissTimes(evs)|
    ensures k < |evs| && evs[k].now == MissTimes(evs)[i]
  {
    if i < |MissTimes(evs[..|evs| - 1])| {
      k := MissIsEvent(evs[..|evs| - 1], i);
    } else {
      k := |evs| - 1;
    }
  }

  lemma PrefixMonotone(evs: seq<Event>, tail: seq<Event>)
    requires Monotone(evs + tail)
    ensures Monotone(evs)
    ensures forall i, k :: 0 <= i < |evs| && 0 <= k < |tail| ==> evs[i].now <= tail[k].now
  {
    var all := evs + tail;
    assert forall i :: 0 <= i < |evs| ==> evs[i] == all[i];
    assert forall k :: 0 <= k < |tail| ==> tail[k] == all[|evs| + k];
  }

  /** The counters before the tail describe a window that began before any miss of the tail. */
  lemma BeforeTail(evs: seq<Event>, tail: seq<Event>, lim: Limits)
    requires Monotone(evs + tail)
    ensures Describes(After(evs, lim), Window(evs, lim), evs, lim)
    ensures forall k :: 0 <= k < |tail| ==> After(evs, lim).timeUs <= tail[k].now
    ensures MissTimes(tail) != [] ==> After(evs, lim).timeUs <= MissTimes(tail)[0]
  {
    PrefixMonotone(evs, tail);
    CountersDescribeWindow(evs, lim);
    if MissTimes(tail) != [] {
      var k := MissIsEvent(tail, 0);
    }
  }

  /** Timer steps and dropped faults in the tail change neither what it reports nor, up to run-out windows,
      the counters. */
  lemma {:induction false} TailActsAsBurst(evs: seq<Event>, tail: seq<Event>, now: nat, lim: Limits)
    requires Monotone(evs + tail) && NoReset(tail)
    requires forall i :: 0 <= i < |evs + tail| ==> (evs + tail)[i].now <= now
    ensures Shadows(After(evs + tail, lim), AfterBurst(After(evs, lim), MissTimes(tail), lim), now, lim)
    ensures ReportsFrom(evs + tail, |evs|, lim) <==> ReportsSome(After(evs, lim), MissTimes(tail), lim)
  {
    if tail == [] {
      assert evs + tail == evs;
      CountersDescribeWindow(evs, lim);
    } else {
      var init, e := tail[..|tail| - 1], tail[|tail| - 1];
      var pre, c := evs + init, After(evs, lim);
      assert evs + tail == pre + [e];
      PrefixMonotone(pre, [e]);
      assert (pre + [e])[|pre|] == e;
      assert forall i :: 0 <= i < |pre| ==> pre[i].now <= [e][0].now;
      TailActsAsBurst(evs, init, e.now, lim);
      TailStep(pre, e, |evs|, c, MissTimes(init), now, lim);
    }
  }

  lemma TailStep(pre: seq<Event>, e: Event, lo: nat, c: Counters, ts: seq<nat>, now: nat, lim: Limits)
    requires !e.Reset? && e.now <= now && lo <= |pre|
    requires Shadows(After(pre, lim), AfterBurst(c, ts, lim), e.now, lim)
    requires ReportsFrom(pre, lo, lim) <==> ReportsSome(c, ts, lim)
    ensures var all := ts + if IsMiss(e) then [e.now] else [];
      && Shadows(After(pre + [e], lim), AfterBurst(c, all, lim), now, lim)
      && (ReportsFrom(pre + [e], lo, lim) <==> ReportsSome(c, all, lim))
  {
    ShadowStep(After(pre, lim), AfterBurst(c, ts, lim), e, now, lim);
    RunExtends(pre, e, lim);
    ReportsGrow(pre, e, lo, lim);
    if IsMiss(e) {
      BurstGrows(c, ts, e.now, lim);
    } else {
      assert ts + [] == ts;
    }
  }

  lemma ReportsGrow(evs: seq<Event>, e: Event, lo: nat, lim: Limits)
    requires lo <= |evs|
    ensures ReportsFrom(evs + [e], lo, lim) <==> ReportsFrom(evs, lo, lim) || Reports(After(evs, lim), e, lim)
  {
    RunExtends(evs, e, lim);
    var all := evs + [e];
    if ReportsFrom(evs, lo, lim) {
      var i: nat :| lo <= i < |evs| && ReportsAt(evs, i, lim);
      assert ReportsAt(all, i, lim);
    }
    if Reports(After(evs, lim), e, lim) {
      assert ReportsAt(all, |evs|, lim);
    }
  }

  lemma BurstGrows(c: Counters, ts: seq<nat>, t: nat, lim: Limits)
    ensures AfterBurst(c, ts + [t], lim) == Step(AfterBurst(c, ts, lim), Fault(t, true), lim)
    ensures ReportsSome(c, ts + [t], lim) <==>
      ReportsSome(c, ts, lim) || Reports(AfterBurst(c, ts, lim), Fault(t, true), lim)
  {
    var all := ts + [t];
    assert all[..|ts|] == ts;
    assert forall i :: 0 <= i < |ts| ==> all[i] == ts[i] && all[..i] == ts[..i];
    if ReportsSome(c, ts, lim) {
      var i: nat :| i < |ts| && ReportsInBurst(c, ts, i, lim);
      assert ReportsInBurst(c, all, i, lim);
    }
    if Reports(AfterBurst(c, ts, lim), Fault(t, true), lim) {
      assert ReportsInBurst(c, all, |ts|, lim);
    }
    if ReportsSome(c, all, lim) {
      var i: nat :| i < |all| && ReportsInBurst(c, all, i, lim);
      assert i < |ts| ==> ReportsInBurst(c, ts, i, lim);
    }
  }

  /** The windows tumble rather than slide: three misses within one period, none reported. */
  lemma DenseMissesMayGoUnreported()
    ensures var lim, evs := Limits(10, 3), [Fault(1, true), Fault(10, true), Fault(12, true), Fault(13, true)];
      && Monotone(evs) && evs[3].now - evs[1].now <= lim.periodUs
      && forall i: nat :: i < 4 ==> !ReportsAt(evs, i, lim)
  {
    var lim, evs := Limits(10, 3), [Fault(1, true), Fault(10, true), Fault(12, true), Fault(13, true)];
    assert evs[..0] == [];
    assert evs[..1] == [] + [Fault(1, true)];
    assert evs[..2] == evs[..1] + [Fault(10, true)];
    assert evs[..3] == evs[..2] + [Fault(12, true)];
    RunExtends([], Fault(1, true), lim);
    RunExtends(evs[..1], Fault(10, true), lim);
    RunExtends(evs[..2], Fault(12, true), lim);
    assert After(evs[..3], lim) == Counters(1, 12);
  }

  // ----- the handlers, updating the counters in place

  class MonitoredTask {
    var dmissCount: nat
    var dmissTimeUs: nat
    const limits: Limits

    ghost function State(): Counters
      reads this
    {
      Counters(dmissCount, dmissTimeUs)
    }

    constructor (lim: Limits)
      ensures State() == CLEARED && limits == lim
    {
      dmissCount, dmissTimeUs := 0, 0;
      limits := lim;
    }

    method HandleFault(now: nat, known: bool) returns (reported: bool)
      modifies this
      ensures State() == Step(old(State()), Fault(now, known), limits)
      ensures reported == Reports(old(State()), Fault(now, known), limits)
    {
      if !known {
        return false;
      }
      if dmissTimeUs == 0 || now < dmissTimeUs || now - dmissTimeUs > limits.periodUs {
        dmissCount := 1;
        dmissTimeUs := now;
      } else {
        dmissCount := dmissCount + 1;
      }
      reported := dmissCount >= limits.allowable;
      if reported {
        dmissCount := 0;
        dmissTimeUs := 0;
      }
    }

    method HandleTimer(now: nat)
      modifies this
      ensures State() == Step(old(State()), Tick(now), limits)
    {
      if dmissTimeUs != 0 {
        if now < dmissTimeUs || now - dmissTimeUs > limits.periodUs {
          dmissCount := 0;
          dmissTimeUs := 0;
        }
      }
    }

    method HandleReset(now: nat)
      modifies this
      ensures State() == Step(old(State()), Reset(now), limits)
    {
      dmissCount := 0;
      dmissTimeUs := 0;
    }
  }
}
