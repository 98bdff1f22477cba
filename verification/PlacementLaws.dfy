/** What every placement run guarantees, for all three algorithms and all task lists. */
module PlacementLaws {
  import opened Wrappers
  import opened Tasks
  import opened Placement

  // ----- the load of a CPU, from the tasks placed on it

  predicate PlacedAt(t: Task, node: string, cpu: nat)
  {
    t.assignedNode == node && t.assignedCpu == Some(cpu)
  }

  /** Sum of runtime/period over the tasks placed on a CPU. */
  function Load(tasks: seq<Task>, node: string, cpu: nat): real
  {
    if tasks == [] then 0.0 else
      Load(tasks[..|tasks| - 1], node, cpu) +
      if PlacedAt(tasks[|tasks| - 1], node, cpu) then Utilization(tasks[|tasks| - 1]) else 0.0
  }

  /** Sum of runtime/period over the tasks placed on a node. */
  function TotalLoad(tasks: seq<Task>, node: string): real
  {
    if tasks == [] then 0.0 else
      TotalLoad(tasks[..|tasks| - 1], node) +
      if tasks[|tasks| - 1].assignedNode == node then Utilization(tasks[|tasks| - 1]) else 0.0
  }

  // ----- what every step keeps

  /** The map tracks exactly the configured CPUs. */
  ghost predicate Shape(cfg: Config, util: CpuUtil)
  {
    && (forall n :: n in util <==> n in cfg.nodes)
    && (forall n, c :: n in util ==> (c in util[n] <==> c in cfg.nodes[n].availableCpus))
  }

  ghost predicate Placed(cfg: Config, t: Task)
  {
    && t.assignedNode in cfg.nodes && t.assignedCpu.Some?
    && t.assignedCpu.value in cfg.nodes[t.assignedNode].availableCpus
  }

  predicate OnPinnedCpu(t: Task)
  {
    t.affinity.Pinned? && t.assignedCpu == Some(TrailingZeros(t.affinity.mask))
  }

  /** A task away from its pinned CPU, or without one, found every higher CPU full for it, and its
      pinned CPU too; loads only grow, so they still are. */
  ghost predicate Packed(cfg: Config, t: Task, util: CpuUtil)
    requires Placed(cfg, t)
  {
    OnPinnedCpu(t) || (
      && (forall c :: c in cfg.nodes[t.assignedNode].availableCpus && c > t.assignedCpu.value ==>
            !Fits(util, t.assignedNode, c, Utilization(t)))
      && (t.affinity.Pinned? ==> !Fits(util, t.assignedNode, TrailingZeros(t.affinity.mask), Utilization(t))))
  }

  ghost predicate LoadsAgree(run: Run)
  {
    && (forall n, c :: CpuLoad(run.util, n, c) == Load(run.tasks, n, c))
    && (forall n, c :: CpuLoad(run.util, n, c) <= THRESHOLD)
  }

  ghost predicate RunInv(cfg: Config, run: Run)
  {
    && Shape(cfg, run.util)
    && LoadsAgree(run)
    && (forall i :: 0 <= i < |run.tasks| ==> Placed(cfg, run.tasks[i]) && Packed(cfg, run.tasks[i], run.util))
  }

  lemma ChosenCpu(cfg: Config, t: Task, node: string, util: CpuUtil, cpu: nat)
    requires Feasible(cfg, t, node, util) && FindCpu(cfg, t, node, util) == Some(cpu)
    ensures cpu in cfg.nodes[node].availableCpus && Fits(util, node, cpu, Utilization(t))
    ensures Packed(cfg, Assigned(t, node, cpu), util)
  {
  }

  lemma StaysPacked(cfg: Config, t: Task, util: CpuUtil, next: CpuUtil)
    requires Placed(cfg, t) && Packed(cfg, t, util)
    requires forall n, c :: CpuLoad(util, n, c) <= CpuLoad(next, n, c)
    ensures Packed(cfg, t, next)
  {
  }

  lemma PlaceKeepsLoads(run: Run, t: Task, node: string, cpu: nat)
    requires LoadsAgree(run) && Fits(run.util, node, cpu, Utilization(t))
    ensures LoadsAgree(Run(run.tasks + [Assigned(t, node, cpu)], Charge(run.util, node, cpu, Utilization(t))))
    ensures forall n, c :: CpuLoad(run.util, n, c) <= CpuLoad(Charge(run.util, node, cpu, Utilization(t)), n, c)
  {
  }

  lemma PlaceKeepsInv(cfg: Config, run: Run, t: Task, node: string, cpu: nat)
    requires RunInv(cfg, run) && Feasible(cfg, t, node, run.util) && FindCpu(cfg, t, node, run.util) == Some(cpu)
    ensures RunInv(cfg, Run(run.tasks + [Assigned(t, node, cpu)], Charge(run.util, node, cpu, Utilization(t))))
  {
    ChosenCpu(cfg, t, node, run.util, cpu);
    PlaceKeepsLoads(run, t, node, cpu);
    var tasks, util := run.tasks + [Assigned(t, node, cpu)], Charge(run.util, node, cpu, Utilization(t));
    forall i | 0 <= i < |tasks| ensures Placed(cfg, tasks[i]) && Packed(cfg, tasks[i], util) {
      if i < |run.tasks| {
        assert tasks[i] == run.tasks[i];
      }
      StaysPacked(cfg, tasks[i], run.util, util);
    }
  }

  lemma {:induction false} EveryRunKeepsInv(cfg: Config, alg: Algorithm, tasks: seq<Task>)
    requires PlaceAll(cfg, alg, tasks).Ok?
    ensures RunInv(cfg, PlaceAll(cfg, alg, tasks).value)
  {
    if tasks != [] {
      var init, t := tasks[..|tasks| - 1], tasks[|tasks| - 1];
      EveryRunKeepsInv(cfg, alg, init);
      var run := PlaceAll(cfg, alg, init).value;
      NothingIsSkipped(cfg, alg, t, run.util);
      ChoiceIsFeasible(cfg, alg, t, run.util);
      var c := Choose(cfg, alg, t, run.util);
      PlaceKeepsInv(cfg, run, t, c.node, c.cpu);
    }
  }

  /** Load index agreement: at every step of every algorithm the tracked load of each CPU is the sum
      of runtime/period over the tasks placed there so far, and is at most 0.9. */
  lemma TrackedLoadIsExact(cfg: Config, alg: Algorithm, tasks: seq<Task>, k: nat, node: string, cpu: nat)
    requires k <= |tasks| && PlaceAll(cfg, alg, tasks[..k]).Ok?
    ensures var run := PlaceAll(cfg, alg, tasks[..k]).value;
      CpuLoad(run.util, node, cpu) == Load(run.tasks, node, cpu) <= 0.9
  {
    EveryRunKeepsInv(cfg, alg, tasks[..k]);
  }

  // ----- packing

  /** At the end no task without a pinned CPU sits below a CPU of its node that could still take it. */
  lemma NoHigherCpuHasRoom(cfg: Config, alg: Algorithm, tasks: seq<Task>, i: nat, cpu: nat)
    requires PlaceAll(cfg, alg, tasks).Ok? && i < |PlaceAll(cfg, alg, tasks).value.tasks|
    requires var t := PlaceAll(cfg, alg, tasks).value.tasks[i];
      && !OnPinnedCpu(t) && t.assignedCpu.Some? && t.assignedNode in cfg.nodes
      && cpu in cfg.nodes[t.assignedNode].availableCpus && cpu > t.assignedCpu.value
    ensures var run := PlaceAll(cfg, alg, tasks).value;
      Load(run.tasks, run.tasks[i].assignedNode, cpu) + Utilization(run.tasks[i]) > THRESHOLD
  {
    EveryRunKeepsInv(cfg, alg, tasks);
    var run := PlaceAll(cfg, alg, tasks).value;
    var t := run.tasks[i];
    assert Packed(cfg, t, run.util);
    assert CpuLoad(run.util, t.assignedNode, cpu) == Load(run.tasks, t.assignedNode, cpu);
  }

  /** A pinned task leaves its pinned CPU only if that CPU is too full for it to the end. */
  lemma PinnedCpuIsLeftOnlyWhenFull(cfg: Config, alg: Algorithm, tasks: seq<Task>, i: nat)
    requires PlaceAll(cfg, alg, tasks).Ok? && i < |PlaceAll(cfg, alg, tasks).value.tasks|
    requires var t := PlaceAll(cfg, alg, tasks).value.tasks[i]; t.affinity.Pinned? && !OnPinnedCpu(t)
    ensures var run := PlaceAll(cfg, alg, tasks).value;
      var t := run.tasks[i];
      Load(run.tasks, t.assignedNode, TrailingZeros(t.affinity.mask)) + Utilization(t) > THRESHOLD
  {
    EveryRunKeepsInv(cfg, alg, tasks);
    var run := PlaceAll(cfg, alg, tasks).value;
    var t := run.tasks[i];
    assert Packed(cfg, t, run.util);
    assert CpuLoad(run.util, t.assignedNode, TrailingZeros(t.affinity.mask)) ==
           Load(run.tasks, t.assignedNode, TrailingZeros(t.affinity.mask));
  }

  /** A longer run begins as the shorter one did. */
  lemma {:induction false} RunsBeginAlike(cfg: Config, alg: Algorithm, tasks: seq<Task>, i: nat)
    requires i <= |tasks| && PlaceAll(cfg, alg, tasks).Ok?
    ensures PlaceAll(cfg, alg, tasks[..i]).Ok? && |PlaceAll(cfg, alg, tasks).value.tasks| == |tasks|
    ensures PlaceAll(cfg, alg, tasks).value.tasks[..i] == PlaceAll(cfg, alg, tasks[..i]).value.tasks
  {
    PlacementKeepsRequests(cfg, alg, tasks);
    if i == |tasks| {
      assert tasks[..i] == tasks;
    } else {
      var init := tasks[..|tasks| - 1];
      RunsBeginAlike(cfg, alg, init, i);
      assert init[..i] == tasks[..i];
      var run := PlaceAll(cfg, alg, init).value;
      ExtendKeepsRequest(run, tasks[|tasks| - 1], Choose(cfg, alg, tasks[|tasks| - 1], run.util));
    }
  }

  /** Task i is where its algorithm puts it after the tasks before it. */
  lemma PlacedAtItsTurn(cfg: Config, alg: Algorithm, tasks: seq<Task>, i: nat)
    requires PlaceAll(cfg, alg, tasks).Ok? && i < |tasks|
    ensures PlaceAll(cfg, alg, tasks[..i]).Ok? && RunInv(cfg, PlaceAll(cfg, alg, tasks[..i]).value)
    ensures i < |PlaceAll(cfg, alg, tasks).value.tasks|
    ensures var util, t := PlaceAll(cfg, alg, tasks[..i]).value.util, PlaceAll(cfg, alg, tasks).value.tasks[i];
      && t.assignedCpu.Some?
      && Choose(cfg, alg, tasks[i], util) == Place(t.assignedNode, t.assignedCpu.value)
      && Feasible(cfg, tasks[i], t.assignedNode, util)
      && FindCpu(cfg, tasks[i], t.assignedNode, util) == t.assignedCpu
      && t == Assigned(tasks[i], t.assignedNode, t.assignedCpu.value)
  {
    var upTo := tasks[..i + 1];
    assert upTo[..i] == tasks[..i];
    RunsBeginAlike(cfg, alg, tasks, i + 1);
    RunsBeginAlike(cfg, alg, upTo, i);
    assert PlaceAll(cfg, alg, tasks).value.tasks[i] == PlaceAll(cfg, alg, upTo).value.tasks[i];
    EveryRunKeepsInv(cfg, alg, tasks[..i]);
    var run := PlaceAll(cfg, alg, tasks[..i]).value;
    NothingIsSkipped(cfg, alg, tasks[i], run.util);
    ChoiceIsFeasible(cfg, alg, tasks[i], run.util);
  }

  predicate HasRoom(placed: seq<Task>, node: string, cpu: nat, u: real)
  {
    Load(placed, node, cpu) + u <= THRESHOLD
  }

  ghost predicate HighestRoom(cfg: Config, placed: seq<Task>, node: string, u: real, cpu: nat)
  {
    && node in cfg.nodes && cpu in cfg.nodes[node].availableCpus && HasRoom(placed, node, cpu, u)
    && forall c :: c in cfg.nodes[node].availableCpus && HasRoom(placed, node, c, u) ==> c <= cpu
  }

  /** A CPU of the node: the pinned one, which the node has, if that has room, and otherwise the
      highest-numbered one that has. */
  ghost predicate RightCpu(cfg: Config, placed: seq<Task>, t: Task, node: string, cpu: nat)
  {
    && node in cfg.nodes
    && (t.affinity.Pinned? ==> TrailingZeros(t.affinity.mask) in cfg.nodes[node].availableCpus)
    && if t.affinity.Pinned? && HasRoom(placed, node, TrailingZeros(t.affinity.mask), Utilization(t))
       then cpu == TrailingZeros(t.affinity.mask)
       else HighestRoom(cfg, placed, node, Utilization(t), cpu)
  }

  /** The CPU of every task, from the tasks placed before it. */
  lemma CpuAtItsTurn(cfg: Config, alg: Algorithm, tasks: seq<Task>, i: nat)
    requires PlaceAll(cfg, alg, tasks).Ok? && i < |tasks|
    ensures PlaceAll(cfg, alg, tasks[..i]).Ok? && i < |PlaceAll(cfg, alg, tasks).value.tasks|
    ensures var before, t := PlaceAll(cfg, alg, tasks[..i]).value.tasks, PlaceAll(cfg, alg, tasks).value.tasks[i];
      t.assignedCpu.Some? && RightCpu(cfg, before, tasks[i], t.assignedNode, t.assignedCpu.value)
  {
    PlacedAtItsTurn(cfg, alg, tasks, i);
    var run := PlaceAll(cfg, alg, tasks[..i]).value;
    var t := PlaceAll(cfg, alg, tasks).value.tasks[i];
    forall c ensures Fits(run.util, t.assignedNode, c, Utilization(tasks[i])) <==>
                     HasRoom(run.tasks, t.assignedNode, c, Utilization(tasks[i]))
    {
      assert CpuLoad(run.util, t.assignedNode, c) == Load(run.tasks, t.assignedNode, c);
    }
  }

  /** Affinity is honoured exactly when there is room: a pinned task sits on its pinned CPU if and only
      if that CPU, at the task's turn, could take it within the limit. */
  lemma PinnedCpuIsKeptExactlyWhenItHasRoom(cfg: Config, alg: Algorithm, tasks: seq<Task>, i: nat)
    requires PlaceAll(cfg, alg, tasks).Ok? && i < |tasks| && tasks[i].affinity.Pinned?
    ensures PlaceAll(cfg, alg, tasks[..i]).Ok? && i < |PlaceAll(cfg, alg, tasks).value.tasks|
    ensures var before, t := PlaceAll(cfg, alg, tasks[..i]).value.tasks, PlaceAll(cfg, alg, tasks).value.tasks[i];
      OnPinnedCpu(t) <==> HasRoom(before, t.assignedNode, TrailingZeros(tasks[i].affinity.mask), Utilization(tasks[i]))
  {
    PlacedAtItsTurn(cfg, alg, tasks, i);
    CpuAtItsTurn(cfg, alg, tasks, i);
  }

  /** For target_node_priority, the algorithm that the service uses, the room is that of the pinned CPU
      on the task's own target. */
  lemma TargetedPinnedCpuIsKeptExactlyWhenItHasRoom(cfg: Config, tasks: seq<Task>, i: nat)
    requires PlaceAll(cfg, TargetNodePriority, tasks).Ok? && i < |tasks| && tasks[i].affinity.Pinned?
    ensures PlaceAll(cfg, TargetNodePriority, tasks[..i]).Ok?
    ensures i < |PlaceAll(cfg, TargetNodePriority, tasks).value.tasks|
    ensures var before, pinned := PlaceAll(cfg, TargetNodePriority, tasks[..i]).value.tasks, tasks[i].affinity.mask;
      OnPinnedCpu(PlaceAll(cfg, TargetNodePriority, tasks).value.tasks[i]) <==>
      HasRoom(before, tasks[i].targetNode, TrailingZeros(pinned), Utilization(tasks[i]))
  {
    PinnedCpuIsKeptExactlyWhenItHasRoom(cfg, TargetNodePriority, tasks, i);
    PlacementKeepsRequests(cfg, TargetNodePriority, tasks);
    TargetNodeIsHonoured(cfg, tasks);
    assert SameRequest(PlaceAll(cfg, TargetNodePriority, tasks).value.tasks[i], tasks[i]);
  }

  /** A task pinned to CPU 0 that takes half of it. */
  const HALF_OF_CPU0: Task :=
    Task("t", "w", "n", Normal, 0, Pinned(1), 0, 2, 1, 2, 0, 0, "", None)

  /** Affinity is not always honoured: two tasks pinned to CPU 0, the second ends up on CPU 1. */
  lemma PinnedTaskMayMove()
    ensures var cfg := Config(map["n" := NodeConfig([0, 1], 0)], ["n"], true);
      var r := PlaceAll(cfg, TargetNodePriority, [HALF_OF_CPU0, HALF_OF_CPU0]);
      r.Ok? && r.value.tasks == [Assigned(HALF_OF_CPU0, "n", 0), Assigned(HALF_OF_CPU0, "n", 1)]
  {
    var cfg := Config(map["n" := NodeConfig([0, 1], 0)], ["n"], true);
    var t, empty := HALF_OF_CPU0, InitialUtil(cfg);
    assert [t, t][..1] == [t] && [t][..0] == [];
    assert TrailingZeros(1) == 0 && Utilization(t) == 0.5;
    assert 0 in cfg.nodes["n"].availableCpus && 1 in cfg.nodes["n"].availableCpus;
    assert FindCpu(cfg, t, "n", empty) == Some(0);
    assert PlaceAll(cfg, TargetNodePriority, [t]) ==
      Ok(Run([] + [Assigned(t, "n", 0)], Charge(empty, "n", 0, 0.5)));
    var half := Charge(empty, "n", 0, 0.5);
    assert !Fits(half, "n", 0, 0.5) && Fits(half, "n", 1, 0.5);
    assert FindCpu(cfg, t, "n", half) == Some(1);
  }

  lemma {:induction false} TaskLoadIsPartOfCpuLoad(tasks: seq<Task>, i: nat, node: string, cpu: nat)
    requires i < |tasks| && PlacedAt(tasks[i], node, cpu)
    ensures Utilization(tasks[i]) <= Load(tasks, node, cpu)
  {
    LoadIsNotNegative(tasks[..|tasks| - 1], node, cpu);
    if i < |tasks| - 1 {
      TaskLoadIsPartOfCpuLoad(tasks[..|tasks| - 1], i, node, cpu);
    }
  }

  lemma {:induction false} LoadIsNotNegative(tasks: seq<Task>, node: string, cpu: nat)
    ensures Load(tasks, node, cpu) >= 0.0
  {
    if tasks != [] {
      LoadIsNotNegative(tasks[..|tasks| - 1], node, cpu);
    }
  }

  /** With no pinned tasks, of two CPUs of one node that are both used at most one can end at or
      below half of the limit. */
  lemma AtMostOneHalfEmptyCpu(cfg: Config, alg: Algorithm, tasks: seq<Task>, i: nat, j: nat)
    requires PlaceAll(cfg, alg, tasks).Ok?
    requires forall k :: 0 <= k < |tasks| ==> tasks[k].affinity.Any?
    requires var placed := PlaceAll(cfg, alg, tasks).value.tasks;
      && i < |placed| && j < |placed| && placed[i].assignedNode == placed[j].assignedNode
      && placed[i].assignedCpu.Some? && placed[j].assignedCpu.Some?
      && placed[i].assignedCpu.value < placed[j].assignedCpu.value
    ensures var placed := PlaceAll(cfg, alg, tasks).value.tasks;
      Load(placed, placed[i].assignedNode, placed[i].assignedCpu.value) > 0.45 ||
      Load(placed, placed[i].assignedNode, placed[j].assignedCpu.value) > 0.45
  {
    EveryRunKeepsInv(cfg, alg, tasks);
    PlacementKeepsRequests(cfg, alg, tasks);
    var placed := PlaceAll(cfg, alg, tasks).value.tasks;
    assert SameRequest(placed[i], tasks[i]) && Placed(cfg, placed[j]);
    NoHigherCpuHasRoom(cfg, alg, tasks, i, placed[j].assignedCpu.value);
    TaskLoadIsPartOfCpuLoad(placed, i, placed[i].assignedNode, placed[i].assignedCpu.value);
  }

  // ----- nothing but the assignment changes

  predicate SameRequest(a: Task, b: Task)
  {
    a == b.(assignedNode := a.assignedNode, assignedCpu := a.assignedCpu)
  }

  lemma {:induction false} PlacementKeepsRequests(cfg: Config, alg: Algorithm, tasks: seq<Task>)
    requires PlaceAll(cfg, alg, tasks).Ok?
    ensures var placed := PlaceAll(cfg, alg, tasks).value.tasks;
      |placed| == |tasks| && forall i :: 0 <= i < |tasks| ==> SameRequest(placed[i], tasks[i])
  {
    if tasks != [] {
      var init, t := tasks[..|tasks| - 1], tasks[|tasks| - 1];
      PlacementKeepsRequests(cfg, alg, init);
      var run := PlaceAll(cfg, alg, init).value;
      ExtendKeepsRequest(run, t, Choose(cfg, alg, t, run.util));
      SameRequestsNext(run.tasks, PlaceAll(cfg, alg, tasks).value.tasks, tasks);
    }
  }

  lemma SameRequestsNext(before: seq<Task>, after: seq<Task>, tasks: seq<Task>)
    requires 0 < |after| == |tasks| == |before| + 1 && after[..|before|] == before
    requires forall i :: 0 <= i < |before| ==> SameRequest(before[i], tasks[..|before|][i])
    requires SameRequest(after[|before|], tasks[|before|])
    ensures forall i :: 0 <= i < |tasks| ==> SameRequest(after[i], tasks[i])
  {
    forall i | 0 <= i < |before| ensures SameRequest(after[i], tasks[i]) {
      assert SameRequest(before[i], tasks[..|before|][i]) && after[i] == after[..|before|][i];
    }
  }

  lemma ExtendKeepsRequest(run: Run, t: Task, c: Choice)
    requires Extend(run, t, c).Ok?
    ensures var next := Extend(run, t, c).value.tasks;
      && |next| == |run.tasks| + 1 && SameRequest(next[|run.tasks|], t)
      && next[..|run.tasks|] == run.tasks
  {
  }

  // ----- node loads and the capacity test

  lemma {:induction false} SumAfterUpdate(m: map<nat, real>, c: nat, v: real, n: nat)
    ensures SumBelow(m[c := v], n) ==
            SumBelow(m, n) + if c < n then v - (if c in m then m[c] else 0.0) else 0.0
  {
    if n > 0 {
      SumAfterUpdate(m, c, v, n - 1);
    }
  }

  /** The keys of m below n. */
  function KeysBelow(m: map<nat, real>, n: nat): set<nat>
  {
    set k | k in m && k < n
  }

  lemma {:induction false} SumIsBounded(m: map<nat, real>, n: nat)
    requires forall k :: k in m ==> m[k] <= THRESHOLD
    ensures SumBelow(m, n) <= THRESHOLD * |KeysBelow(m, n)| as real
  {
    if n > 0 {
      SumIsBounded(m, n - 1);
      if n - 1 in m {
        assert KeysBelow(m, n) == KeysBelow(m, n - 1) + {n - 1};
      } else {
        assert KeysBelow(m, n) == KeysBelow(m, n - 1);
      }
    } else {
      assert KeysBelow(m, n) == {};
    }
  }

  lemma {:induction false} SumIsNotNegative(m: map<nat, real>, n: nat)
    requires forall k :: k in m ==> m[k] >= 0.0
    ensures SumBelow(m, n) >= 0.0
  {
    if n > 0 {
      SumIsNotNegative(m, n - 1);
    }
  }

  lemma {:induction false} FewerValuesThanEntries(s: set<nat>, xs: seq<nat>)
    requires forall x :: x in s ==> x in xs
    ensures |s| <= |xs|
  {
    if xs != [] {
      var x := xs[|xs| - 1];
      FewerValuesThanEntries(s - {x}, xs[..|xs| - 1]);
      assert |s| <= |s - {x}| + 1 by {
        if x in s {
          assert s == (s - {x}) + {x};
        } else {
          assert s == s - {x};
        }
      }
    }
  }

  /** The `after <= cpu_count` test of best_fit_decreasing never removes a candidate in a reachable
      state, even if the CPU list repeats an entry. */
  lemma CapacityTestIsRedundant(cfg: Config, run: Run, t: Task, node: string)
    requires ValidConfig(cfg) && RunInv(cfg, run) && Candidate(cfg, t, node, run.util)
    ensures WithinCapacity(cfg, t, run.util, node)
  {
    CandidateIsFeasible(cfg, t, node, run.util);
    var cpus, m, u := cfg.nodes[node].availableCpus, run.util[node], Utilization(t);
    var c :| c in cpus && Fits(run.util, node, c, u);
    var filled := m[c := m[c] + u];
    SumAfterUpdate(m, c, m[c] + u, CPU_LIMIT);
    forall k | k in filled ensures filled[k] <= THRESHOLD {
      assert CpuLoad(run.util, node, k) <= THRESHOLD;
      assert CpuLoad(run.util, node, c) + u <= THRESHOLD;
    }
    SumIsBounded(filled, CPU_LIMIT);
    FewerValuesThanEntries(KeysBelow(filled, CPU_LIMIT), cpus);
  }

  lemma NodeLoadIsNotNegative(cfg: Config, run: Run, node: string)
    requires RunInv(cfg, run)
    ensures NodeLoad(run.util, node) >= 0.0
  {
    if node in run.util {
      forall c | c in run.util[node] ensures run.util[node][c] >= 0.0 {
        assert CpuLoad(run.util, node, c) == Load(run.tasks, node, c);
        LoadIsNotNegative(run.tasks, node, c);
      }
      SumIsNotNegative(run.util[node], CPU_LIMIT);
    }
  }

  lemma ChargeAddsToOneNode(util: CpuUtil, node: string, cpu: nat, u: real, n: string)
    requires cpu < CPU_LIMIT && node in util
    ensures NodeLoad(Charge(util, node, cpu, u), n) == NodeLoad(util, n) + if n == node then u else 0.0
  {
    SumAfterUpdate(util[node], cpu, CpuLoad(util, node, cpu) + u, CPU_LIMIT);
  }

  lemma {:induction false} InitialSumIsZero(m: map<nat, real>, n: nat)
    requires forall k :: k in m ==> m[k] == 0.0
    ensures SumBelow(m, n) == 0.0
  {
    if n > 0 {
      InitialSumIsZero(m, n - 1);
    }
  }

  /** The per-node total read from the load map is the total of runtime/period over the tasks placed
      on the node: no rescan of the task list is needed. */
  lemma {:induction false} NodeLoadIsExact(cfg: Config, alg: Algorithm, tasks: seq<Task>, node: string)
    requires ValidConfig(cfg) && PlaceAll(cfg, alg, tasks).Ok?
    ensures var run := PlaceAll(cfg, alg, tasks).value;
      NodeLoad(run.util, node) == TotalLoad(run.tasks, node)
  {
    if tasks == [] {
      if node in cfg.nodes {
        InitialSumIsZero(InitialUtil(cfg)[node], CPU_LIMIT);
      }
    } else {
      var init, t := tasks[..|tasks| - 1], tasks[|tasks| - 1];
      NodeLoadIsExact(cfg, alg, init, node);
      EveryRunKeepsInv(cfg, alg, init);
      var run := PlaceAll(cfg, alg, init).value;
      NothingIsSkipped(cfg, alg, t, run.util);
      ChoiceIsFeasible(cfg, alg, t, run.util);
      var c := Choose(cfg, alg, t, run.util);
      ChosenCpu(cfg, t, c.node, run.util, c.cpu);
      ChargeAddsToOneNode(run.util, c.node, c.cpu, Utilization(t), node);
      TotalAfter(run.tasks, Assigned(t, c.node, c.cpu), node);
    }
  }

  lemma TotalAfter(tasks: seq<Task>, t: Task, node: string)
    ensures TotalLoad(tasks + [t], node) ==
            TotalLoad(tasks, node) + if t.assignedNode == node then Utilization(t) else 0.0
  {
  }

  // ----- the search is complete

  ghost predicate Stuck(cfg: Config, t: Task, util: CpuUtil)
  {
    forall n :: n in cfg.nodes ==> !Feasible(cfg, t, n, util)
  }

  lemma StuckMeansNoCandidate(cfg: Config, t: Task, util: CpuUtil)
    requires ValidConfig(cfg)
    ensures Stuck(cfg, t, util) <==> forall i :: 0 <= i < |cfg.order| ==> !Candidate(cfg, t, cfg.order[i], util)
  {
  }

  lemma TightestSearchIsComplete(cfg: Config, run: Run, t: Task)
    requires ValidConfig(cfg) && RunInv(cfg, run)
    ensures var r := TightestNode(cfg, t, run.util, |cfg.order|);
      && (r.None? <==> forall i :: 0 <= i < |cfg.order| ==> !Candidate(cfg, t, cfg.order[i], run.util))
      && (r.Some? ==> exists k :: 0 <= k < |cfg.order| && cfg.order[k] == r.value &&
                        FirstMaximal(cfg, t, run.util, |cfg.order|, k))
  {
    forall i | 0 <= i < |cfg.order|
      ensures NodeLoad(run.util, cfg.order[i]) >= 0.0
      ensures Candidate(cfg, t, cfg.order[i], run.util) ==> WithinCapacity(cfg, t, run.util, cfg.order[i])
    {
      NodeLoadIsNotNegative(cfg, run, cfg.order[i]);
      if Candidate(cfg, t, cfg.order[i], run.util) {
        CapacityTestIsRedundant(cfg, run, t, cfg.order[i]);
      }
    }
    TightestIsMaximal(cfg, t, run.util, |cfg.order|);
  }

  /** What stops each algorithm: the two searching ones need some node that can take the task,
      target_node_priority needs a workload, a target, and that very target to be able to take it. */
  ghost predicate Blocked(cfg: Config, alg: Algorithm, t: Task, util: CpuUtil)
  {
    if alg == TargetNodePriority then
      t.workloadId == "" || t.targetNode == "" || !Feasible(cfg, t, t.targetNode, util)
    else Stuck(cfg, t, util)
  }

  function BlockError(cfg: Config, alg: Algorithm, t: Task): SchedulerError
  {
    if alg != TargetNodePriority then NoSchedulableNode(t.name)
    else if t.workloadId == "" then MissingWorkloadId(t.name)
    else if t.targetNode == "" then MissingTargetNode(t.name)
    else AdmissionRejected(t.name, t.targetNode,
      match CheckAdmission(cfg, t, t.targetNode)
      case Some(reason) => reason
      case None => NoAvailableCpu)
  }

  lemma TargetRefusalMeansBlocked(cfg: Config, t: Task, util: CpuUtil)
    ensures ChooseTarget(cfg, t, util).Refuse? <==> Blocked(cfg, TargetNodePriority, t, util)
    ensures ChooseTarget(cfg, t, util).Refuse? ==>
      ChooseTarget(cfg, t, util).error == BlockError(cfg, TargetNodePriority, t)
  {
  }

  lemma SearchRefusalMeansStuck(cfg: Config, alg: Algorithm, run: Run, t: Task)
    requires ValidConfig(cfg) && RunInv(cfg, run) && alg != TargetNodePriority
    ensures Choose(cfg, alg, t, run.util).Refuse? <==> Stuck(cfg, t, run.util)
  {
    StuckMeansNoCandidate(cfg, t, run.util);
    if alg == LeastLoaded {
      LeastLoadedIsMinimal(cfg, t, run.util, |cfg.order|);
    } else {
      TightestSearchIsComplete(cfg, run, t);
      CandidateIsFeasible(cfg, t, t.targetNode, run.util);
    }
  }

  /** In a reachable state a task is refused exactly when its algorithm is blocked. */
  lemma RefusalMeansBlocked(cfg: Config, alg: Algorithm, run: Run, t: Task)
    requires ValidConfig(cfg) && RunInv(cfg, run)
    ensures Choose(cfg, alg, t, run.util).Refuse? <==> Blocked(cfg, alg, t, run.util)
    ensures Choose(cfg, alg, t, run.util).Refuse? ==> Choose(cfg, alg, t, run.util).error == BlockError(cfg, alg, t)
  {
    if alg == TargetNodePriority {
      TargetRefusalMeansBlocked(cfg, t, run.util);
    } else {
      SearchRefusalMeansStuck(cfg, alg, run, t);
    }
  }

  /** The first k tasks were placed and the next one is blocked. */
  ghost predicate BlockedAt(cfg: Config, alg: Algorithm, tasks: seq<Task>, k: nat)
    requires k < |tasks|
  {
    PlaceAll(cfg, alg, tasks[..k]).Ok? && Blocked(cfg, alg, tasks[k], PlaceAll(cfg, alg, tasks[..k]).value.util)
  }

  lemma LastTaskDecides(cfg: Config, alg: Algorithm, tasks: seq<Task>)
    requires ValidConfig(cfg) && tasks != [] && PlaceAll(cfg, alg, tasks[..|tasks| - 1]).Ok?
    ensures PlaceAll(cfg, alg, tasks).Err? <==> BlockedAt(cfg, alg, tasks, |tasks| - 1)
    ensures PlaceAll(cfg, alg, tasks).Err? ==>
      PlaceAll(cfg, alg, tasks) == Err(BlockError(cfg, alg, tasks[|tasks| - 1]))
  {
    var init := tasks[..|tasks| - 1];
    EveryRunKeepsInv(cfg, alg, init);
    RefusalMeansBlocked(cfg, alg, PlaceAll(cfg, alg, init).value, tasks[|tasks| - 1]);
  }

  lemma {:induction false} FirstErrorStays(cfg: Config, alg: Algorithm, tasks: seq<Task>, k: nat)
    requires k <= |tasks| && PlaceAll(cfg, alg, tasks[..k]).Err?
    ensures PlaceAll(cfg, alg, tasks) == PlaceAll(cfg, alg, tasks[..k])
  {
    if k == |tasks| {
      assert tasks[..k] == tasks;
    } else {
      var init := tasks[..|tasks| - 1];
      assert init[..k] == tasks[..k];
      FirstErrorStays(cfg, alg, init, k);
    }
  }

  lemma BlockedRunFails(cfg: Config, alg: Algorithm, tasks: seq<Task>, k: nat)
    requires ValidConfig(cfg) && k < |tasks| && BlockedAt(cfg, alg, tasks, k)
    ensures PlaceAll(cfg, alg, tasks) == Err(BlockError(cfg, alg, tasks[k]))
  {
    var upTo := tasks[..k + 1];
    assert upTo[..k] == tasks[..k];
    LastTaskDecides(cfg, alg, upTo);
    FirstErrorStays(cfg, alg, tasks, k + 1);
  }

  lemma {:induction false} FailedRunWasBlocked(cfg: Config, alg: Algorithm, tasks: seq<Task>) returns (k: nat)
    requires ValidConfig(cfg) && PlaceAll(cfg, alg, tasks).Err?
    ensures k < |tasks| && BlockedAt(cfg, alg, tasks, k)
  {
    var init := tasks[..|tasks| - 1];
    if PlaceAll(cfg, alg, init).Err? {
      k := FailedRunWasBlocked(cfg, alg, init);
      assert init[..k] == tasks[..k];
    } else {
      LastTaskDecides(cfg, alg, tasks);
      k := |tasks| - 1;
    }
  }

  /** Search completeness: a run fails exactly when some task is blocked at its turn. For least_loaded
      and best_fit_decreasing that is: no node admits it with a CPU within the limit. The error names
      that task. */
  lemma FailsExactlyWhenBlocked(cfg: Config, alg: Algorithm, tasks: seq<Task>)
    requires ValidConfig(cfg)
    ensures PlaceAll(cfg, alg, tasks).Err? <==> exists k :: 0 <= k < |tasks| && BlockedAt(cfg, alg, tasks, k)
    ensures forall k :: 0 <= k < |tasks| && BlockedAt(cfg, alg, tasks, k) ==>
      PlaceAll(cfg, alg, tasks) == Err(BlockError(cfg, alg, tasks[k]))
  {
    forall k | 0 <= k < |tasks| && BlockedAt(cfg, alg, tasks, k)
      ensures PlaceAll(cfg, alg, tasks) == Err(BlockError(cfg, alg, tasks[k]))
    {
      BlockedRunFails(cfg, alg, tasks, k);
    }
    if PlaceAll(cfg, alg, tasks).Err? {
      var k := FailedRunWasBlocked(cfg, alg, tasks);
    }
  }

  // ----- the node of every task, from the tasks placed before it

  /** The node exists, admits the task and has a CPU with room beside the tasks placed so far. */
  ghost predicate CanTake(cfg: Config, t: Task, node: string, placed: seq<Task>)
  {
    && node in cfg.nodes
    && (t.memoryMb == 0 || t.memoryMb <= cfg.nodes[node].maxMemoryMb)
    && (t.affinity.Pinned? ==> TrailingZeros(t.affinity.mask) in cfg.nodes[node].availableCpus)
    && exists c :: c in cfg.nodes[node].availableCpus && HasRoom(placed, node, c, Utilization(t))
  }

  lemma CanTakeIsFeasible(cfg: Config, run: Run, t: Task, node: string)
    requires LoadsAgree(run)
    ensures CanTake(cfg, t, node, run.tasks) <==> Feasible(cfg, t, node, run.util)
    ensures CanTake(cfg, t, node, run.tasks) <==> Candidate(cfg, t, node, run.util)
  {
    forall c ensures Fits(run.util, node, c, Utilization(t)) <==> HasRoom(run.tasks, node, c, Utilization(t)) {
      assert CpuLoad(run.util, node, c) == Load(run.tasks, node, c);
    }
    CandidateIsFeasible(cfg, t, node, run.util);
  }

  /** The k-th node in name order can take the task, none that can is fuller, and earlier ones are emptier. */
  ghost predicate FirstFullest(cfg: Config, t: Task, placed: seq<Task>, k: nat)
    requires k < |cfg.order|
  {
    && CanTake(cfg, t, cfg.order[k], placed)
    && forall i :: 0 <= i < |cfg.order| && CanTake(cfg, t, cfg.order[i], placed) ==>
         && TotalLoad(placed, cfg.order[i]) <= TotalLoad(placed, cfg.order[k])
         && (i < k ==> TotalLoad(placed, cfg.order[i]) < TotalLoad(placed, cfg.order[k]))
  }

  /** The k-th node in name order can take the task, none that can is emptier, and earlier ones are fuller. */
  ghost predicate FirstEmptiest(cfg: Config, t: Task, placed: seq<Task>, k: nat)
    requires k < |cfg.order|
  {
    && CanTake(cfg, t, cfg.order[k], placed)
    && forall i :: 0 <= i < |cfg.order| && CanTake(cfg, t, cfg.order[i], placed) ==>
         && TotalLoad(placed, cfg.order[k]) <= TotalLoad(placed, cfg.order[i])
         && (i < k ==> TotalLoad(placed, cfg.order[k]) < TotalLoad(placed, cfg.order[i]))
  }

  lemma NodeFacts(cfg: Config, alg: Algorithm, tasks: seq<Task>, t: Task)
    requires ValidConfig(cfg) && PlaceAll(cfg, alg, tasks).Ok?
    ensures var run := PlaceAll(cfg, alg, tasks).value;
      && (forall n :: CanTake(cfg, t, n, run.tasks) <==> Candidate(cfg, t, n, run.util))
      && (forall n :: NodeLoad(run.util, n) == TotalLoad(run.tasks, n))
  {
    EveryRunKeepsInv(cfg, alg, tasks);
    var run := PlaceAll(cfg, alg, tasks).value;
    forall n ensures CanTake(cfg, t, n, run.tasks) <==> Candidate(cfg, t, n, run.util) {
      CanTakeIsFeasible(cfg, run, t, n);
    }
    forall n ensures NodeLoad(run.util, n) == TotalLoad(run.tasks, n) { NodeLoadIsExact(cfg, alg, tasks, n); }
  }

  /** least_loaded puts each task on the first node, in name order, of lowest load that can take it. */
  lemma LeastLoadedNodeAtItsTurn(cfg: Config, tasks: seq<Task>, i: nat)
    requires ValidConfig(cfg) && PlaceAll(cfg, LeastLoaded, tasks).Ok? && i < |tasks|
    ensures PlaceAll(cfg, LeastLoaded, tasks[..i]).Ok? && i < |PlaceAll(cfg, LeastLoaded, tasks).value.tasks|
    ensures var before := PlaceAll(cfg, LeastLoaded, tasks[..i]).value.tasks;
      exists k :: 0 <= k < |cfg.order| && FirstEmptiest(cfg, tasks[i], before, k) &&
        cfg.order[k] == PlaceAll(cfg, LeastLoaded, tasks).value.tasks[i].assignedNode
  {
    PlacedAtItsTurn(cfg, LeastLoaded, tasks, i);
    NodeFacts(cfg, LeastLoaded, tasks[..i], tasks[i]);
    SearchFindsEmptiest(cfg, PlaceAll(cfg, LeastLoaded, tasks[..i]).value, tasks[i]);
  }

  lemma SearchFindsEmptiest(cfg: Config, run: Run, t: Task)
    requires ValidConfig(cfg) && LeastLoadedNode(cfg, t, run.util, |cfg.order|).Some?
    requires forall n :: CanTake(cfg, t, n, run.tasks) <==> Candidate(cfg, t, n, run.util)
    requires forall n :: NodeLoad(run.util, n) == TotalLoad(run.tasks, n)
    ensures exists k :: 0 <= k < |cfg.order| && FirstEmptiest(cfg, t, run.tasks, k) &&
                        cfg.order[k] == LeastLoadedNode(cfg, t, run.util, |cfg.order|).value
  {
    LeastLoadedIsMinimal(cfg, t, run.util, |cfg.order|);
    var node := LeastLoadedNode(cfg, t, run.util, |cfg.order|).value;
    var k :| 0 <= k < |cfg.order| && cfg.order[k] == node && FirstMinimal(cfg, t, run.util, |cfg.order|, k);
    assert FirstEmptiest(cfg, t, run.tasks, k);
  }

  /** best_fit_decreasing puts each task on its target if it names one that can take it, and otherwise on
      the first node, in name order, of highest load that can. */
  lemma BestFitNodeAtItsTurn(cfg: Config, tasks: seq<Task>, i: nat)
    requires ValidConfig(cfg) && PlaceAll(cfg, BestFitDecreasing, tasks).Ok? && i < |tasks|
    ensures PlaceAll(cfg, BestFitDecreasing, tasks[..i]).Ok?
    ensures i < |PlaceAll(cfg, BestFitDecreasing, tasks).value.tasks|
    ensures var before := PlaceAll(cfg, BestFitDecreasing, tasks[..i]).value.tasks;
      var node := PlaceAll(cfg, BestFitDecreasing, tasks).value.tasks[i].assignedNode;
      if tasks[i].targetNode != "" && CanTake(cfg, tasks[i], tasks[i].targetNode, before)
      then node == tasks[i].targetNode
      else exists k :: 0 <= k < |cfg.order| && FirstFullest(cfg, tasks[i], before, k) && cfg.order[k] == node
  {
    PlacedAtItsTurn(cfg, BestFitDecreasing, tasks, i);
    NodeFacts(cfg, BestFitDecreasing, tasks[..i], tasks[i]);
    var run, t := PlaceAll(cfg, BestFitDecreasing, tasks[..i]).value, tasks[i];
    if t.targetNode == "" || !CanTake(cfg, t, t.targetNode, run.tasks) {
      SearchFindsFullest(cfg, run, t);
    }
  }

  lemma SearchFindsFullest(cfg: Config, run: Run, t: Task)
    requires ValidConfig(cfg) && RunInv(cfg, run) && TightestNode(cfg, t, run.util, |cfg.order|).Some?
    requires forall n :: CanTake(cfg, t, n, run.tasks) <==> Candidate(cfg, t, n, run.util)
    requires forall n :: NodeLoad(run.util, n) == TotalLoad(run.tasks, n)
    ensures exists k :: 0 <= k < |cfg.order| && FirstFullest(cfg, t, run.tasks, k) &&
                        cfg.order[k] == TightestNode(cfg, t, run.util, |cfg.order|).value
  {
    TightestSearchIsComplete(cfg, run, t);
    var node := TightestNode(cfg, t, run.util, |cfg.order|).value;
    var k :| 0 <= k < |cfg.order| && cfg.order[k] == node && FirstMaximal(cfg, t, run.util, |cfg.order|, k);
    FullestFromMaximal(cfg, run, t, k);
  }

  lemma FullestFromMaximal(cfg: Config, run: Run, t: Task, k: nat)
    requires k < |cfg.order| && FirstMaximal(cfg, t, run.util, |cfg.order|, k)
    requires forall n :: CanTake(cfg, t, n, run.tasks) <==> Candidate(cfg, t, n, run.util)
    requires forall n :: NodeLoad(run.util, n) == TotalLoad(run.tasks, n)
    ensures FirstFullest(cfg, t, run.tasks, k)
  {
  }

  /** target_node_priority puts every task on its own target node, which has a name. */
  lemma {:induction false} TargetNodeIsHonoured(cfg: Config, tasks: seq<Task>)
    requires PlaceAll(cfg, TargetNodePriority, tasks).Ok?
    ensures var placed := PlaceAll(cfg, TargetNodePriority, tasks).value.tasks;
      forall i :: 0 <= i < |placed| ==> placed[i].assignedNode == placed[i].targetNode != ""
  {
    if tasks != [] {
      var init, t := tasks[..|tasks| - 1], tasks[|tasks| - 1];
      TargetNodeIsHonoured(cfg, init);
      NothingIsSkipped(cfg, TargetNodePriority, t, PlaceAll(cfg, TargetNodePriority, init).value.util);
    }
  }

  // ----- the resulting schedule

  /** The schedule entries of one node, in task order. */
  function OnNode(tasks: seq<Task>, node: string): seq<SchedTask>
  {
    if tasks == [] then [] else
      var t := tasks[|tasks| - 1];
      OnNode(tasks[..|tasks| - 1], node) + if IsAssigned(t) && t.assignedNode == node then [ToSchedTask(t)] else []
  }

  function SchedMap(tasks: seq<Task>): map<string, seq<SchedTask>>
  {
    if tasks == [] then map[] else
      var m, t := SchedMap(tasks[..|tasks| - 1]), tasks[|tasks| - 1];
      if !IsAssigned(t) then m
      else m[t.assignedNode := (if t.assignedNode in m then m[t.assignedNode] else []) + [ToSchedTask(t)]]
  }

  lemma {:induction false} SchedMapGroupsByNode(tasks: seq<Task>, node: string)
    ensures node in SchedMap(tasks) <==> OnNode(tasks, node) != []
    ensures node in SchedMap(tasks) ==> SchedMap(tasks)[node] == OnNode(tasks, node)
  {
    if tasks != [] {
      SchedMapGroupsByNode(tasks[..|tasks| - 1], node);
    }
  }

  /** How many entries the listed nodes hold together. */
  function Held(m: map<string, seq<SchedTask>>, nodes: seq<string>): nat
  {
    if nodes == [] then 0 else
      var n := nodes[|nodes| - 1];
      Held(m, nodes[..|nodes| - 1]) + if n in m then |m[n]| else 0
  }

  lemma {:induction false} HeldAfter(m: map<string, seq<SchedTask>>, node: string, e: SchedTask, nodes: seq<string>)
    requires forall i, j :: 0 <= i < j < |nodes| ==> nodes[i] != nodes[j]
    ensures Held(m[node := (if node in m then m[node] else []) + [e]], nodes) ==
            Held(m, nodes) + if node in nodes then 1 else 0
  {
    if nodes != [] {
      HeldAfter(m, node, e, nodes[..|nodes| - 1]);
      assert nodes == nodes[..|nodes| - 1] + [nodes[|nodes| - 1]];
    }
  }

  lemma {:induction false} NameLessIsIrreflexive(a: string)
    ensures !NameLess(a, a)
  {
    if a != "" {
      NameLessIsIrreflexive(a[1..]);
    }
  }

  /** How many tasks have both a node with a name and a CPU. */
  function AssignedCount(tasks: seq<Task>): nat
  {
    if tasks == [] then 0
    else AssignedCount(tasks[..|tasks| - 1]) + if IsAssigned(tasks[|tasks| - 1]) then 1 else 0
  }

  lemma {:induction false} AllAreAssigned(tasks: seq<Task>)
    ensures AssignedCount(tasks) <= |tasks|
    ensures AssignedCount(tasks) == |tasks| <==> forall i :: 0 <= i < |tasks| ==> IsAssigned(tasks[i])
  {
    if tasks != [] {
      var init := tasks[..|tasks| - 1];
      AllAreAssigned(init);
      assert tasks == init + [tasks[|tasks| - 1]];
    }
  }

  lemma {:induction false} NodesHoldAllTasks(tasks: seq<Task>, nodes: seq<string>)
    requires forall i, j :: 0 <= i < j < |nodes| ==> nodes[i] != nodes[j]
    requires forall i :: 0 <= i < |tasks| && IsAssigned(tasks[i]) ==> tasks[i].assignedNode in nodes
    ensures Held(SchedMap(tasks), nodes) == AssignedCount(tasks)
  {
    if tasks == [] {
      NothingHeld(nodes);
    } else {
      var t := tasks[|tasks| - 1];
      NodesHoldAllTasks(tasks[..|tasks| - 1], nodes);
      HeldAfter(SchedMap(tasks[..|tasks| - 1]), t.assignedNode, ToSchedTask(t), nodes);
    }
  }

  lemma {:induction false} NothingHeld(nodes: seq<string>)
    ensures Held(map[], nodes) == 0
  {
    if nodes != [] {
      NothingHeld(nodes[..|nodes| - 1]);
    }
  }

  /** Placement conservation: a successful run schedules every task exactly once, except those that
      landed on a node named "". Each node holds the entries of exactly its own tasks in order, only
      nodes with tasks appear, and together they hold as many entries as there are tasks if and only
      if no task landed on "". */
  lemma EveryNamedTaskIsScheduledOnce(cfg: Config, alg: Algorithm, tasks: seq<Task>)
    requires ValidConfig(cfg) && PlaceAll(cfg, alg, tasks).Ok?
    ensures var placed := PlaceAll(cfg, alg, tasks).value.tasks;
      var m := SchedMap(placed);
      && |placed| == |tasks|
      && (forall i :: 0 <= i < |placed| && placed[i].assignedNode != "" ==> placed[i].assignedNode in m)
      && (forall n :: n in m ==> n != "" && n in cfg.nodes && m[n] == OnNode(placed, n) && m[n] != [])
      && Held(m, cfg.order) == AssignedCount(placed)
      && (Held(m, cfg.order) == |tasks| <==> forall i :: 0 <= i < |placed| ==> placed[i].assignedNode != "")
  {
    EveryRunKeepsInv(cfg, alg, tasks);
    PlacementKeepsRequests(cfg, alg, tasks);
    var placed := PlaceAll(cfg, alg, tasks).value.tasks;
    forall i | 0 <= i < |placed| && placed[i].assignedNode != ""
      ensures IsAssigned(placed[i]) && placed[i].assignedNode in SchedMap(placed)
    {
      assert Placed(cfg, placed[i]);
      SchedMapGroupsByNode(placed, placed[i].assignedNode);
      TaskIsOnItsNode(placed, i);
    }
    forall n | n in SchedMap(placed)
      ensures n != "" && n in cfg.nodes && SchedMap(placed)[n] == OnNode(placed, n) != []
    {
      SchedMapGroupsByNode(placed, n);
      EntriesComeFromTasks(placed, n);
    }
    NodeNamesDiffer(cfg);
    NodesHoldAllTasks(placed, cfg.order);
    AllAreAssigned(placed);
  }

  lemma NodeNamesDiffer(cfg: Config)
    requires ValidConfig(cfg)
    ensures forall i, j :: 0 <= i < j < |cfg.order| ==> cfg.order[i] != cfg.order[j]
  {
    forall i, j | 0 <= i < j < |cfg.order| ensures cfg.order[i] != cfg.order[j] {
      NameLessIsIrreflexive(cfg.order[i]);
    }
  }

  /** No task can land on a node named "": the algorithm asks for a named target, or there is no such
      node, or it has no CPU. */
  predicate EveryNodeIsNamed(cfg: Config, alg: Algorithm)
  {
    alg == TargetNodePriority || "" !in cfg.nodes || cfg.nodes[""].availableCpus == []
  }

  /** Hence a successful run schedules every task exactly once where every usable node has a name. */
  lemma EveryTaskIsScheduledOnce(cfg: Config, alg: Algorithm, tasks: seq<Task>)
    requires ValidConfig(cfg) && PlaceAll(cfg, alg, tasks).Ok? && EveryNodeIsNamed(cfg, alg)
    ensures var placed := PlaceAll(cfg, alg, tasks).value.tasks;
      var m := SchedMap(placed);
      && (forall i :: 0 <= i < |placed| ==> IsAssigned(placed[i]) && placed[i].assignedNode in m)
      && (forall n :: n in m ==> n in cfg.nodes && m[n] == OnNode(placed, n) && m[n] != [])
      && Held(m, cfg.order) == |tasks|
  {
    EveryNamedTaskIsScheduledOnce(cfg, alg, tasks);
    EveryRunKeepsInv(cfg, alg, tasks);
    if alg == TargetNodePriority {
      TargetNodeIsHonoured(cfg, tasks);
    }
    var placed := PlaceAll(cfg, alg, tasks).value.tasks;
    forall i | 0 <= i < |placed| ensures IsAssigned(placed[i]) { assert Placed(cfg, placed[i]); }
  }

  /** A request without load, memory, affinity or target. */
  const IDLE: Task := Task("t", "w", "", Normal, 0, Any, 0, 1, 0, 1, 0, 0, "", None)

  /** A node without a name comes first in name order and wins every tie, so an idle task lands on it. */
  lemma UnnamedNodeIsChosen(cfg: Config, alg: Algorithm)
    requires ValidConfig(cfg) && !EveryNodeIsNamed(cfg, alg)
    ensures var r := PlaceAll(cfg, alg, [IDLE]);
      r.Ok? && |r.value.tasks| == 1 && r.value.tasks[0].assignedNode == ""
  {
    var run := Run([], InitialUtil(cfg));
    assert [IDLE][..0] == [] && PlaceAll(cfg, alg, []) == Ok(run);
    EveryRunKeepsInv(cfg, alg, []);
    assert cfg.order[0] == "" by {
      var k :| 0 <= k < |cfg.order| && cfg.order[k] == "";
      assert k > 0 ==> NameLess(cfg.order[0], cfg.order[k]);
    }
    forall n ensures NodeLoad(run.util, n) == 0.0 { NodeLoadIsExact(cfg, alg, [], n); }
    assert cfg.nodes[""].availableCpus[0] in cfg.nodes[""].availableCpus;
    assert Fits(run.util, "", cfg.nodes[""].availableCpus[0], 0.0) && Utilization(IDLE) == 0.0;
    CandidateIsFeasible(cfg, IDLE, "", run.util);
    if alg == LeastLoaded {
      LeastLoadedIsMinimal(cfg, IDLE, run.util, |cfg.order|);
    } else {
      TightestSearchIsComplete(cfg, run, IDLE);
    }
    NothingIsSkipped(cfg, alg, IDLE, run.util);
  }

  ghost predicate LosesNothing(cfg: Config, alg: Algorithm, tasks: seq<Task>)
  {
    PlaceAll(cfg, alg, tasks).Ok? ==> Held(SchedMap(PlaceAll(cfg, alg, tasks).value.tasks), cfg.order) == |tasks|
  }

  /** Exactly which configurations never lose a task: the searching algorithms do as soon as a node
      without a name has a CPU. */
  lemma NothingIsLostExactlyWhenNodesAreNamed(cfg: Config, alg: Algorithm)
    requires ValidConfig(cfg)
    ensures (forall tasks :: LosesNothing(cfg, alg, tasks)) <==> EveryNodeIsNamed(cfg, alg)
  {
    if EveryNodeIsNamed(cfg, alg) {
      forall tasks ensures LosesNothing(cfg, alg, tasks) {
        if PlaceAll(cfg, alg, tasks).Ok? {
          EveryTaskIsScheduledOnce(cfg, alg, tasks);
        }
      }
    } else {
      UnnamedNodeIsChosen(cfg, alg);
      EveryNamedTaskIsScheduledOnce(cfg, alg, [IDLE]);
      assert !LosesNothing(cfg, alg, [IDLE]);
    }
  }

  lemma {:induction false} TaskIsOnItsNode(tasks: seq<Task>, i: nat)
    requires i < |tasks| && IsAssigned(tasks[i])
    ensures ToSchedTask(tasks[i]) in OnNode(tasks, tasks[i].assignedNode)
  {
    if i < |tasks| - 1 {
      TaskIsOnItsNode(tasks[..|tasks| - 1], i);
    }
  }

  lemma {:induction false} EntriesComeFromTasks(tasks: seq<Task>, node: string)
    requires OnNode(tasks, node) != []
    ensures exists i :: 0 <= i < |tasks| && tasks[i].assignedNode == node && IsAssigned(tasks[i])
  {
    var init := tasks[..|tasks| - 1];
    if OnNode(init, node) != [] {
      EntriesComeFromTasks(init, node);
      var i :| 0 <= i < |init| && init[i].assignedNode == node && IsAssigned(init[i]);
      assert tasks[i] == init[i];
    }
  }
}
