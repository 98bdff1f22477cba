/**
 Task placement in the Rust orchestrator: admission control, highest-CPU-first packing under a
 90 % limit, and the three node selection policies, as functions of the tasks placed so far.
 Utilisation is exact.
 */
module Placement {
  import opened Wrappers
  import opened Tasks

  const THRESHOLD: real := 0.9

  const CPU_LIMIT: nat := 0x1_0000_0000

  datatype NodeConfig = NodeConfig(availableCpus: seq<nat>, maxMemoryMb: nat)

  /** order is the iteration order of the sorted node map. */
  datatype Config = Config(nodes: map<string, NodeConfig>, order: seq<string>, loaded: bool)

  predicate NameLess(a: string, b: string)
  {
    if b == "" then false
    else if a == "" then true
    else a[0] < b[0] || (a[0] == b[0] && NameLess(a[1..], b[1..]))
  }

  ghost predicate ValidConfig(cfg: Config)
  {
    && (forall i, j :: 0 <= i < j < |cfg.order| ==> NameLess(cfg.order[i], cfg.order[j]))
    && (forall n :: n in cfg.nodes <==> n in cfg.order)
    && (forall n, c :: n in cfg.nodes && c in cfg.nodes[n].availableCpus ==> c < CPU_LIMIT)
  }

  datatype AdmissionReason =
    | NodeNotFound(node: string)
    | InsufficientMemory(requiredMb: nat, availableMb: nat)
    | CpuAffinityUnavailable(cpu: nat)
    | NoAvailableCpu

  datatype SchedulerError =
    | NoTasks
    | ConfigNotLoaded
    | UnknownAlgorithm(name: string)
    | MissingWorkloadId(task: string)
    | MissingTargetNode(task: string)
    | AdmissionRejected(task: string, node: string, reason: AdmissionReason)
    | NoSchedulableNode(task: string)

  // ----- the load map

  type CpuUtil = map<string, map<nat, real>>

  function InitialUtil(cfg: Config): CpuUtil
  {
    map n | n in cfg.nodes :: (map c | c in cfg.nodes[n].availableCpus :: 0.0)
  }

  function CpuLoad(util: CpuUtil, node: string, cpu: nat): real
  {
    if node in util && cpu in util[node] then util[node][cpu] else 0.0
  }

  /** Sum of the values of all keys below n, in ascending key order. */
  function SumBelow(m: map<nat, real>, n: nat): real
  {
    if n == 0 then 0.0 else SumBelow(m, n - 1) + if n - 1 in m then m[n - 1] else 0.0
  }

  function NodeLoad(util: CpuUtil, node: string): real
  {
    if node in util then SumBelow(util[node], CPU_LIMIT) else 0.0
  }

  function Charge(util: CpuUtil, node: string, cpu: nat, u: real): CpuUtil
  {
    var cpus := if node in util then util[node] else map[];
    util[node := cpus[cpu := CpuLoad(util, node, cpu) + u]]
  }

  predicate Fits(util: CpuUtil, node: string, cpu: nat, u: real)
  {
    CpuLoad(util, node, cpu) + u <= THRESHOLD
  }

  // ----- one CPU for one task

  function CheckAdmission(cfg: Config, t: Task, node: string): Option<AdmissionReason>
  {
    if node !in cfg.nodes then Some(NodeNotFound(node)) else
      var nc := cfg.nodes[node];
      if t.memoryMb > 0 && t.memoryMb > nc.maxMemoryMb then Some(InsufficientMemory(t.memoryMb, nc.maxMemoryMb))
      else if t.affinity.Pinned? && TrailingZeros(t.affinity.mask) !in nc.availableCpus then
        Some(CpuAffinityUnavailable(TrailingZeros(t.affinity.mask)))
      else None
  }

  /** Each refusal names the first of the three tests that fails, with the values that decided it. */
  lemma AdmissionNamesFirstFailure(cfg: Config, t: Task, node: string)
    ensures var r := CheckAdmission(cfg, t, node);
      if node !in cfg.nodes then r == Some(NodeNotFound(node)) else
        var nc := cfg.nodes[node];
        && (t.memoryMb > nc.maxMemoryMb <==> r == Some(InsufficientMemory(t.memoryMb, nc.maxMemoryMb)))
        && (t.affinity.Pinned? && t.memoryMb <= nc.maxMemoryMb ==>
              (TrailingZeros(t.affinity.mask) !in nc.availableCpus <==>
                 r == Some(CpuAffinityUnavailable(TrailingZeros(t.affinity.mask)))))
        && (r.Some? ==> t.memoryMb > nc.maxMemoryMb ||
                        (t.affinity.Pinned? && TrailingZeros(t.affinity.mask) !in nc.availableCpus))
  {
  }

  /** The highest-numbered CPU of the list that can take the load. */
  function HighestFit(util: CpuUtil, node: string, cpus: seq<nat>, u: real): (r: Option<nat>)
    ensures r.Some? ==> r.value in cpus && Fits(util, node, r.value, u)
    ensures r.Some? ==> forall c :: c in cpus && Fits(util, node, c, u) ==> c <= r.value
    ensures r.None? ==> forall c :: c in cpus ==> !Fits(util, node, c, u)
  {
    if cpus == [] then None else
      var init, c := cpus[..|cpus| - 1], cpus[|cpus| - 1];
      assert cpus == init + [c];
      var best := HighestFit(util, node, init, u);
      if Fits(util, node, c, u) && (best.None? || best.value < c) then Some(c) else best
  }

  predicate PinnedFits(t: Task, node: string, cpus: seq<nat>, util: CpuUtil)
  {
    t.affinity.Pinned? && TrailingZeros(t.affinity.mask) in cpus &&
    Fits(util, node, TrailingZeros(t.affinity.mask), Utilization(t))
  }

  function FindCpu(cfg: Config, t: Task, node: string, util: CpuUtil): Option<nat>
  {
    if node !in cfg.nodes then None else
      var cpus := cfg.nodes[node].availableCpus;
      if PinnedFits(t, node, cpus, util) then Some(TrailingZeros(t.affinity.mask))
      else HighestFit(util, node, cpus, Utilization(t))
  }

  /** A node can take a task: it exists, admits it, and has some CPU with room. */
  ghost predicate Feasible(cfg: Config, t: Task, node: string, util: CpuUtil)
  {
    && node in cfg.nodes
    && (t.memoryMb == 0 || t.memoryMb <= cfg.nodes[node].maxMemoryMb)
    && (t.affinity.Pinned? ==> TrailingZeros(t.affinity.mask) in cfg.nodes[node].availableCpus)
    && exists c :: c in cfg.nodes[node].availableCpus && Fits(util, node, c, Utilization(t))
  }

  predicate Candidate(cfg: Config, t: Task, node: string, util: CpuUtil)
  {
    CheckAdmission(cfg, t, node).None? && FindCpu(cfg, t, node, util).Some?
  }

  lemma CandidateIsFeasible(cfg: Config, t: Task, node: string, util: CpuUtil)
    ensures Candidate(cfg, t, node, util) <==> Feasible(cfg, t, node, util)
  {
  }

  // ----- one node for one task

  /** The first node, among the first n in name order, of lowest load that can take the task. */
  function LeastLoadedNode(cfg: Config, t: Task, util: CpuUtil, n: nat): Option<string>
    requires n <= |cfg.order|
  {
    if n == 0 then None else
      var best, node := LeastLoadedNode(cfg, t, util, n - 1), cfg.order[n - 1];
      if Candidate(cfg, t, node, util) && (best.None? || NodeLoad(util, node) < NodeLoad(util, best.value))
      then Some(node) else best
  }

  function AfterLoad(t: Task, util: CpuUtil, node: string): real
  {
    NodeLoad(util, node) + Utilization(t)
  }

  predicate WithinCapacity(cfg: Config, t: Task, util: CpuUtil, node: string)
  {
    node in cfg.nodes && AfterLoad(t, util, node) <= |cfg.nodes[node].availableCpus| as real
  }

  /** The first node, among the first n in name order, that the task would fill up most. */
  function TightestNode(cfg: Config, t: Task, util: CpuUtil, n: nat): Option<string>
    requires n <= |cfg.order|
  {
    if n == 0 then None else
      var best, node := TightestNode(cfg, t, util, n - 1), cfg.order[n - 1];
      if Candidate(cfg, t, node, util) && WithinCapacity(cfg, t, util, node) &&
         AfterLoad(t, util, node) > (if best.None? then -1.0 else AfterLoad(t, util, best.value))
      then Some(node) else best
  }

  function BestFitNode(cfg: Config, t: Task, util: CpuUtil): Option<string>
  {
    if t.targetNode != "" && Candidate(cfg, t, t.targetNode, util) then Some(t.targetNode)
    else TightestNode(cfg, t, util, |cfg.order|)
  }

  /** The k-th node can take the task, no candidate has a lower load, and earlier ones have a higher one. */
  ghost predicate FirstMinimal(cfg: Config, t: Task, util: CpuUtil, n: nat, k: nat)
    requires k < n <= |cfg.order|
  {
    && Candidate(cfg, t, cfg.order[k], util)
    && (forall i :: 0 <= i < n && Candidate(cfg, t, cfg.order[i], util) ==>
          NodeLoad(util, cfg.order[k]) <= NodeLoad(util, cfg.order[i]))
    && (forall i :: 0 <= i < k && Candidate(cfg, t, cfg.order[i], util) ==>
          NodeLoad(util, cfg.order[k]) < NodeLoad(util, cfg.order[i]))
  }

  ghost predicate FirstMaximal(cfg: Config, t: Task, util: CpuUtil, n: nat, k: nat)
    requires k < n <= |cfg.order|
  {
    && Candidate(cfg, t, cfg.order[k], util)
    && (forall i :: 0 <= i < n && Candidate(cfg, t, cfg.order[i], util) ==>
          AfterLoad(t, util, cfg.order[i]) <= AfterLoad(t, util, cfg.order[k]))
    && (forall i :: 0 <= i < k && Candidate(cfg, t, cfg.order[i], util) ==>
          AfterLoad(t, util, cfg.order[i]) < AfterLoad(t, util, cfg.order[k]))
  }

  /** The best of the first n - 1 nodes stays the best or gives way to a strictly better last one. */
  lemma MinimalGoesOn(cfg: Config, t: Task, util: CpuUtil, n: nat, k: nat)
    requires 0 <= k < n - 1 < |cfg.order| && FirstMinimal(cfg, t, util, n - 1, k)
    ensures
      if Candidate(cfg, t, cfg.order[n - 1], util) && NodeLoad(util, cfg.order[n - 1]) < NodeLoad(util, cfg.order[k])
      then FirstMinimal(cfg, t, util, n, n - 1)
      else FirstMinimal(cfg, t, util, n, k)
  {
  }

  lemma {:induction false} LeastLoadedIsMinimal(cfg: Config, t: Task, util: CpuUtil, n: nat)
    requires n <= |cfg.order|
    ensures var r := LeastLoadedNode(cfg, t, util, n);
      && (r.None? <==> forall i :: 0 <= i < n ==> !Candidate(cfg, t, cfg.order[i], util))
      && (r.Some? ==> exists k :: 0 <= k < n && cfg.order[k] == r.value && FirstMinimal(cfg, t, util, n, k))
  {
    if n > 0 {
      LeastLoadedIsMinimal(cfg, t, util, n - 1);
      var before, after := LeastLoadedNode(cfg, t, util, n - 1), LeastLoadedNode(cfg, t, util, n);
      if before.None? {
        assert after.Some? ==> FirstMinimal(cfg, t, util, n, n - 1);
      } else {
        var k :| 0 <= k < n - 1 && cfg.order[k] == before.value && FirstMinimal(cfg, t, util, n - 1, k);
        MinimalGoesOn(cfg, t, util, n, k);
      }
    }
  }

  lemma MaximalGoesOn(cfg: Config, t: Task, util: CpuUtil, n: nat, k: nat)
    requires 0 <= k < n - 1 < |cfg.order| && FirstMaximal(cfg, t, util, n - 1, k)
    ensures
      if Candidate(cfg, t, cfg.order[n - 1], util) &&
         AfterLoad(t, util, cfg.order[n - 1]) > AfterLoad(t, util, cfg.order[k])
      then FirstMaximal(cfg, t, util, n, n - 1)
      else FirstMaximal(cfg, t, util, n, k)
  {
  }

  lemma OnlyCandidateIsMaximal(cfg: Config, t: Task, util: CpuUtil, n: nat)
    requires 0 < n <= |cfg.order| && forall i :: 0 <= i < n - 1 ==> !Candidate(cfg, t, cfg.order[i], util)
    ensures Candidate(cfg, t, cfg.order[n - 1], util) ==> FirstMaximal(cfg, t, util, n, n - 1)
  {
  }

  lemma {:induction false} TightestIsMaximal(cfg: Config, t: Task, util: CpuUtil, n: nat)
    requires n <= |cfg.order|
    requires forall i :: 0 <= i < n ==> NodeLoad(util, cfg.order[i]) >= 0.0
    requires forall i :: 0 <= i < n && Candidate(cfg, t, cfg.order[i], util) ==>
      WithinCapacity(cfg, t, util, cfg.order[i])
    ensures var r := TightestNode(cfg, t, util, n);
      && (r.None? <==> forall i :: 0 <= i < n ==> !Candidate(cfg, t, cfg.order[i], util))
      && (r.Some? ==> exists k :: 0 <= k < n && cfg.order[k] == r.value && FirstMaximal(cfg, t, util, n, k))
  {
    if n > 0 {
      TightestIsMaximal(cfg, t, util, n - 1);
      var before, after := TightestNode(cfg, t, util, n - 1), TightestNode(cfg, t, util, n);
      if before.None? {
        OnlyCandidateIsMaximal(cfg, t, util, n);
      } else {
        var k :| 0 <= k < n - 1 && cfg.order[k] == before.value && FirstMaximal(cfg, t, util, n - 1, k);
        MaximalGoesOn(cfg, t, util, n, k);
      }
    }
  }

  // ----- all tasks in turn

  datatype Algorithm = TargetNodePriority | LeastLoaded | BestFitDecreasing

  datatype Choice = Place(node: string, cpu: nat) | Skip | Refuse(error: SchedulerError)

  function ChooseOn(cfg: Config, t: Task, util: CpuUtil, node: Option<string>): Choice
  {
    if node.None? then Refuse(NoSchedulableNode(t.name)) else
      match FindCpu(cfg, t, node.value, util)
      case Some(cpu) => Place(node.value, cpu)
      case None => Skip
  }

  function ChooseTarget(cfg: Config, t: Task, util: CpuUtil): Choice
  {
    if t.workloadId == "" then Refuse(MissingWorkloadId(t.name))
    else if t.targetNode == "" then Refuse(MissingTargetNode(t.name))
    else
      match CheckAdmission(cfg, t, t.targetNode)
      case Some(reason) => Refuse(AdmissionRejected(t.name, t.targetNode, reason))
      case None =>
        match FindCpu(cfg, t, t.targetNode, util)
        case Some(cpu) => Place(t.targetNode, cpu)
        case None => Refuse(AdmissionRejected(t.name, t.targetNode, NoAvailableCpu))
  }

  function Choose(cfg: Config, alg: Algorithm, t: Task, util: CpuUtil): Choice
  {
    match alg
    case TargetNodePriority => ChooseTarget(cfg, t, util)
    case LeastLoaded => ChooseOn(cfg, t, util, LeastLoadedNode(cfg, t, util, |cfg.order|))
    case BestFitDecreasing => ChooseOn(cfg, t, util, BestFitNode(cfg, t, util))
  }

  datatype Run = Run(tasks: seq<Task>, util: CpuUtil)

  function Assigned(t: Task, node: string, cpu: nat): Task
  {
    t.(assignedNode := node, assignedCpu := Some(cpu))
  }

  function Extend(run: Run, t: Task, c: Choice): Result<Run, SchedulerError>
  {
    match c
    case Refuse(e) => Err(e)
    case Skip => Ok(Run(run.tasks + [t], run.util))
    case Place(node, cpu) =>
      Ok(Run(run.tasks + [Assigned(t, node, cpu)], Charge(run.util, node, cpu, Utilization(t))))
  }

  function PlaceAll(cfg: Config, alg: Algorithm, tasks: seq<Task>): Result<Run, SchedulerError>
  {
    if tasks == [] then Ok(Run([], InitialUtil(cfg))) else
      match PlaceAll(cfg, alg, tasks[..|tasks| - 1])
      case Err(e) => Err(e)
      case Ok(run) => Extend(run, tasks[|tasks| - 1], Choose(cfg, alg, tasks[|tasks| - 1], run.util))
  }

  // ----- a choice is always a feasible place or a justified refusal

  lemma ChoiceIsFeasible(cfg: Config, alg: Algorithm, t: Task, util: CpuUtil)
    requires Choose(cfg, alg, t, util).Place?
    ensures var c := Choose(cfg, alg, t, util);
      Feasible(cfg, t, c.node, util) && FindCpu(cfg, t, c.node, util) == Some(c.cpu)
  {
    var c := Choose(cfg, alg, t, util);
    if alg == LeastLoaded {
      LeastLoadedIsMinimal(cfg, t, util, |cfg.order|);
    } else if alg == BestFitDecreasing {
      TightestIsCandidate(cfg, t, util, |cfg.order|);
    }
    CandidateIsFeasible(cfg, t, c.node, util);
  }

  lemma {:induction false} TightestIsCandidate(cfg: Config, t: Task, util: CpuUtil, n: nat)
    requires n <= |cfg.order|
    ensures var r := TightestNode(cfg, t, util, n); r.Some? ==> Candidate(cfg, t, r.value, util)
  {
    if n > 0 {
      TightestIsCandidate(cfg, t, util, n - 1);
    }
  }

  /** The two "skipping" branches are dead code: a selected node always has a CPU. */
  lemma NothingIsSkipped(cfg: Config, alg: Algorithm, t: Task, util: CpuUtil)
    ensures Choose(cfg, alg, t, util) != Skip
  {
    if alg == LeastLoaded {
      LeastLoadedIsMinimal(cfg, t, util, |cfg.order|);
    } else if alg == BestFitDecreasing {
      TightestIsCandidate(cfg, t, util, |cfg.order|);
    }
  }
}
