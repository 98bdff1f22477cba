/**
 The scheduler's loops: they update the task list and the load map step by step and compute what
 the placement functions say.
 */
module GlobalScheduler {
  import opened Wrappers
  import opened Tasks
  import opened Placement
  import opened PlacementLaws

  // ----- one CPU

  ghost predicate Descending(s: seq<nat>)
  {
    forall i, j :: 0 <= i < j < |s| ==> s[i] >= s[j]
  }

  lemma InsertKeepsAll<T>(s: seq<T>, k: nat, x: T)
    requires k <= |s|
    ensures multiset(s[..k] + [x] + s[k..]) == multiset(s) + multiset{x}
  {
    assert s == s[..k] + s[k..];
  }

  method InsertDescending(s: seq<nat>, x: nat) returns (r: seq<nat>)
    requires Descending(s)
    ensures Descending(r) && multiset(r) == multiset(s) + multiset{x}
  {
    var k := 0;
    while k < |s| && s[k] >= x
      invariant 0 <= k <= |s|
      invariant forall j :: 0 <= j < k ==> s[j] >= x
    {
      k := k + 1;
    }
    r := s[..k] + [x] + s[k..];
    InsertKeepsAll(s, k, x);
  }

  method SortDescending(xs: seq<nat>) returns (s: seq<nat>)
    ensures Descending(s) && multiset(s) == multiset(xs)
  {
    s := [];
    for i := 0 to |xs|
      invariant Descending(s) && multiset(s) == multiset(xs[..i])
    {
      assert xs[..i + 1] == xs[..i] + [xs[i]];
      s := InsertDescending(s, xs[i]);
    }
    assert xs[..|xs|] == xs;
  }

  lemma SameMembers(a: seq<nat>, b: seq<nat>)
    requires multiset(a) == multiset(b)
    ensures forall x :: x in a <==> x in b
  {
    assert forall x :: x in a <==> x in multiset(a);
    assert forall x :: x in b <==> x in multiset(b);
  }

  method FindBestCpuForTask(cfg: Config, t: Task, node: string, util: CpuUtil) returns (r: Option<nat>)
    ensures r == FindCpu(cfg, t, node, util)
  {
    if node !in cfg.nodes {
      return None;
    }
    var cpus := cfg.nodes[node].availableCpus;
    if cpus == [] {
      return None;
    }
    var u := Utilization(t);
    if t.affinity.Pinned? {
      var pinned := TrailingZeros(t.affinity.mask);
      if pinned in cpus && CpuLoad(util, node, pinned) + u <= THRESHOLD {
        return Some(pinned);
      }
    }
    var sorted := SortDescending(cpus);
    SameMembers(sorted, cpus);
    for i := 0 to |sorted|
      invariant forall j :: 0 <= j < i ==> !Fits(util, node, sorted[j], u)
    {
      if CpuLoad(util, node, sorted[i]) + u <= THRESHOLD {
        assert sorted[i] in cpus;
        forall c | c in cpus && Fits(util, node, c, u) ensures c <= sorted[i] { assert c in sorted; }
        return Some(sorted[i]);
      }
    }
    forall c | c in cpus ensures !Fits(util, node, c, u) { assert c in sorted; }
    return None;
  }

  // ----- one node

  method FindBestNodeLeastLoaded(cfg: Config, t: Task, util: CpuUtil) returns (best: Option<string>)
    requires ValidConfig(cfg)
    ensures best == LeastLoadedNode(cfg, t, util, |cfg.order|)
  {
    best := None;
    var lowest := 0.0;
    for i := 0 to |cfg.order|
      invariant best == LeastLoadedNode(cfg, t, util, i)
      invariant best.Some? ==> lowest == NodeLoad(util, best.value)
    {
      var node := cfg.order[i];
      if cfg.nodes[node].availableCpus == [] || CheckAdmission(cfg, t, node).Some? {
        continue;
      }
      var cpu := FindBestCpuForTask(cfg, t, node, util);
      if cpu.None? {
        continue;
      }
      var load := NodeLoad(util, node);
      if best.None? || load < lowest {
        lowest := load;
        best := Some(node);
      }
    }
  }

  method FindBestNodeBestFitDecreasing(cfg: Config, t: Task, util: CpuUtil) returns (best: Option<string>)
    requires ValidConfig(cfg)
    ensures best == BestFitNode(cfg, t, util)
  {
    if t.targetNode != "" && CheckAdmission(cfg, t, t.targetNode).None? {
      var cpu := FindBestCpuForTask(cfg, t, t.targetNode, util);
      if cpu.Some? {
        return Some(t.targetNode);
      }
    }
    best := None;
    var bestAfter := -1.0;
    for i := 0 to |cfg.order|
      invariant best == TightestNode(cfg, t, util, i)
      invariant bestAfter == if best.None? then -1.0 else AfterLoad(t, util, best.value)
    {
      var node := cfg.order[i];
      if cfg.nodes[node].availableCpus == [] || CheckAdmission(cfg, t, node).Some? {
        continue;
      }
      var cpu := FindBestCpuForTask(cfg, t, node, util);
      if cpu.None? {
        continue;
      }
      var after := NodeLoad(util, node) + Utilization(t);
      if after <= |cfg.nodes[node].availableCpus| as real && after > bestAfter {
        bestAfter := after;
        best := Some(node);
      }
    }
  }

  // ----- all tasks

  /** Invariant shared by the three loops: the first i tasks are placed, the rest are as given. */
  ghost predicate InProgress(cfg: Config, alg: Algorithm, given: seq<Task>, tasks: seq<Task>, util: CpuUtil, i: nat)
  {
    && i <= |given| == |tasks|
    && PlaceAll(cfg, alg, given[..i]) == Ok(Run(tasks[..i], util))
    && tasks[i..] == given[i..]
  }

  lemma StepDone(cfg: Config, alg: Algorithm, given: seq<Task>, tasks: seq<Task>, util: CpuUtil, i: nat,
                 node: string, cpu: nat)
    requires i < |given| && InProgress(cfg, alg, given, tasks, util, i)
    requires Choose(cfg, alg, given[i], util) == Place(node, cpu)
    ensures InProgress(cfg, alg, given, tasks[i := Assigned(tasks[i], node, cpu)],
                       Charge(util, node, cpu, Utilization(tasks[i])), i + 1)
  {
    assert given[..i + 1][..i] == given[..i];
    assert tasks[i] == tasks[i..][0] == given[i..][0] == given[i];
    var next := tasks[i := Assigned(tasks[i], node, cpu)];
    assert next[..i + 1] == tasks[..i] + [Assigned(given[i], node, cpu)];
    assert next[i + 1..] == tasks[i..][1..] && given[i + 1..] == given[i..][1..];
  }

  lemma StepRefused(cfg: Config, alg: Algorithm, given: seq<Task>, tasks: seq<Task>, util: CpuUtil, i: nat)
    requires i < |given| && InProgress(cfg, alg, given, tasks, util, i)
    requires Choose(cfg, alg, given[i], util).Refuse?
    ensures PlaceAll(cfg, alg, given) == Err(Choose(cfg, alg, given[i], util).error)
  {
    assert given[..i + 1][..i] == given[..i];
    FirstErrorStays(cfg, alg, given, i + 1);
  }

  lemma AllDone(cfg: Config, alg: Algorithm, given: seq<Task>, tasks: seq<Task>, util: CpuUtil)
    requires InProgress(cfg, alg, given, tasks, util, |given|)
    ensures PlaceAll(cfg, alg, given) == Ok(Run(tasks, util))
  {
    assert given[..|given|] == given && tasks[..|given|] == tasks;
  }

  lemma NextTask(given: seq<Task>, tasks: seq<Task>, i: nat)
    requires i < |given| == |tasks| && tasks[i..] == given[i..]
    ensures tasks[i] == given[i]
  {
  }

  method ScheduleTargetNodePriority(cfg: Config, given: seq<Task>) returns (r: Result<Run, SchedulerError>)
    ensures r == PlaceAll(cfg, TargetNodePriority, given)
  {
    var tasks, util := given, InitialUtil(cfg);
    assert given[..0] == [] && tasks[..0] == [];
    for i := 0 to |tasks|
      invariant |tasks| == |given| && InProgress(cfg, TargetNodePriority, given, tasks, util, i)
    {
      NextTask(given, tasks, i);
      var t := tasks[i];
      if Choose(cfg, TargetNodePriority, t, util).Refuse? {
        StepRefused(cfg, TargetNodePriority, given, tasks, util, i);
      }
      if t.workloadId == "" {
        return Err(MissingWorkloadId(t.name));
      }
      if t.targetNode == "" {
        return Err(MissingTargetNode(t.name));
      }
      var admission := CheckAdmission(cfg, t, t.targetNode);
      if admission.Some? {
        return Err(AdmissionRejected(t.name, t.targetNode, admission.value));
      }
      var cpu := FindBestCpuForTask(cfg, t, t.targetNode, util);
      if cpu.None? {
        return Err(AdmissionRejected(t.name, t.targetNode, NoAvailableCpu));
      }
      StepDone(cfg, TargetNodePriority, given, tasks, util, i, t.targetNode, cpu.value);
      tasks := tasks[i := Assigned(t, t.targetNode, cpu.value)];
      util := Charge(util, t.targetNode, cpu.value, Utilization(t));
    }
    AllDone(cfg, TargetNodePriority, given, tasks, util);
    return Ok(Run(tasks, util));
  }

  method ScheduleLeastLoaded(cfg: Config, given: seq<Task>) returns (r: Result<Run, SchedulerError>)
    requires ValidConfig(cfg)
    ensures r == PlaceAll(cfg, LeastLoaded, given)
  {
    var tasks, util := given, InitialUtil(cfg);
    assert given[..0] == [] && tasks[..0] == [];
    for i := 0 to |tasks|
      invariant |tasks| == |given| && InProgress(cfg, LeastLoaded, given, tasks, util, i)
    {
      NextTask(given, tasks, i);
      var t := tasks[i];
      var node := FindBestNodeLeastLoaded(cfg, t, util);
      if node.None? {
        StepRefused(cfg, LeastLoaded, given, tasks, util, i);
        return Err(NoSchedulableNode(t.name));
      }
      // A selected node always has a CPU, so the original's "skipping" branch has no counterpart here.
      var cpu := FindBestCpuForTask(cfg, t, node.value, util);
      NothingIsSkipped(cfg, LeastLoaded, t, util);
      StepDone(cfg, LeastLoaded, given, tasks, util, i, node.value, cpu.value);
      tasks := tasks[i := Assigned(t, node.value, cpu.value)];
      util := Charge(util, node.value, cpu.value, Utilization(t));
    }
    AllDone(cfg, LeastLoaded, given, tasks, util);
    return Ok(Run(tasks, util));
  }

  /** Sort by worst-case runtime, largest first; the order of equals is left open. */
  ghost predicate ByRuntime(tasks: seq<Task>)
  {
    forall i, j :: 0 <= i < j < |tasks| ==> tasks[i].runtimeUs >= tasks[j].runtimeUs
  }

  method InsertByRuntime(s: seq<Task>, t: Task) returns (r: seq<Task>)
    requires ByRuntime(s)
    ensures ByRuntime(r) && multiset(r) == multiset(s) + multiset{t}
  {
    var k := 0;
    while k < |s| && s[k].runtimeUs >= t.runtimeUs
      invariant 0 <= k <= |s|
      invariant forall j :: 0 <= j < k ==> s[j].runtimeUs >= t.runtimeUs
    {
      k := k + 1;
    }
    r := s[..k] + [t] + s[k..];
    InsertKeepsAll(s, k, t);
  }

  method SortByRuntime(xs: seq<Task>) returns (s: seq<Task>)
    ensures ByRuntime(s) && multiset(s) == multiset(xs)
  {
    s := [];
    for i := 0 to |xs|
      invariant ByRuntime(s) && multiset(s) == multiset(xs[..i])
    {
      assert xs[..i + 1] == xs[..i] + [xs[i]];
      s := InsertByRuntime(s, xs[i]);
    }
    assert xs[..|xs|] == xs;
  }

  method ScheduleBestFitDecreasing(cfg: Config, unsorted: seq<Task>)
    returns (given: seq<Task>, r: Result<Run, SchedulerError>)
    requires ValidConfig(cfg)
    ensures ByRuntime(given) && multiset(given) == multiset(unsorted)
    ensures r == PlaceAll(cfg, BestFitDecreasing, given)
  {
    given := SortByRuntime(unsorted);
    var tasks, util := given, InitialUtil(cfg);
    assert given[..0] == [] && tasks[..0] == [];
    for i := 0 to |tasks|
      invariant |tasks| == |given| && InProgress(cfg, BestFitDecreasing, given, tasks, util, i)
    {
      NextTask(given, tasks, i);
      var t := tasks[i];
      var node := FindBestNodeBestFitDecreasing(cfg, t, util);
      if node.None? {
        StepRefused(cfg, BestFitDecreasing, given, tasks, util, i);
        return given, Err(NoSchedulableNode(t.name));
      }
      // A selected node always has a CPU, so the original's "skipping" branch has no counterpart here.
      var cpu := FindBestCpuForTask(cfg, t, node.value, util);
      NothingIsSkipped(cfg, BestFitDecreasing, t, util);
      StepDone(cfg, BestFitDecreasing, given, tasks, util, i, node.value, cpu.value);
      tasks := tasks[i := Assigned(t, node.value, cpu.value)];
      util := Charge(util, node.value, cpu.value, Utilization(t));
    }
    AllDone(cfg, BestFitDecreasing, given, tasks, util);
    r := Ok(Run(tasks, util));
  }

  method BuildSchedMap(tasks: seq<Task>) returns (m: map<string, seq<SchedTask>>)
    ensures m == SchedMap(tasks)
  {
    m := map[];
    for i := 0 to |tasks|
      invariant m == SchedMap(tasks[..i])
    {
      assert tasks[..i + 1][..i] == tasks[..i];
      var t := tasks[i];
      if IsAssigned(t) {
        m := m[t.assignedNode := (if t.assignedNode in m then m[t.assignedNode] else []) + [ToSchedTask(t)]];
      }
    }
    assert tasks[..|tasks|] == tasks;
  }

  /** The grouped schedule of a run, or its error. */
  function Grouped(run: Result<Run, SchedulerError>): Result<map<string, seq<SchedTask>>, SchedulerError>
  {
    match run
    case Ok(done) => Ok(SchedMap(done.tasks))
    case Err(e) => Err(e)
  }

  const NAMES := {"target_node_priority", "least_loaded", "best_fit_decreasing"}

  method Schedule(cfg: Config, request: seq<Task>, algorithm: string)
    returns (r: Result<map<string, seq<SchedTask>>, SchedulerError>, ghost taken: seq<Task>)
    requires ValidConfig(cfg)
    ensures request == [] ==> r == Err(NoTasks)
    ensures request != [] && !cfg.loaded ==> r == Err(ConfigNotLoaded)
    ensures request != [] && cfg.loaded && algorithm !in NAMES ==> r == Err(UnknownAlgorithm(algorithm))
    ensures request != [] && cfg.loaded && algorithm == "target_node_priority" ==>
      r == Grouped(PlaceAll(cfg, TargetNodePriority, request))
    ensures request != [] && cfg.loaded && algorithm == "least_loaded" ==>
      r == Grouped(PlaceAll(cfg, LeastLoaded, request))
    ensures request != [] && cfg.loaded && algorithm == "best_fit_decreasing" ==>
      && ByRuntime(taken) && multiset(taken) == multiset(request)
      && r == Grouped(PlaceAll(cfg, BestFitDecreasing, taken))
  {
    taken := request;
    if request == [] {
      return Err(NoTasks), taken;
    }
    if !cfg.loaded {
      return Err(ConfigNotLoaded), taken;
    }
    var run: Result<Run, SchedulerError>;
    if algorithm == "target_node_priority" {
      run := ScheduleTargetNodePriority(cfg, request);
    } else if algorithm == "least_loaded" {
      run := ScheduleLeastLoaded(cfg, request);
    } else if algorithm == "best_fit_decreasing" {
      var sorted;
      sorted, run := ScheduleBestFitDecreasing(cfg, request);
      taken := sorted;
    } else {
      return Err(UnknownAlgorithm(algorithm)), taken;
    }
    match run
    case Err(e) =>
      r := Err(e);
    case Ok(done) =>
      var m := BuildSchedMap(done.tasks);
      r := Ok(m);
  }
}
