/**
 The two gRPC services over one workload store: AddSchedInfo computes hyperperiod and schedule and
 replaces the stored workload; GetSchedInfo and the critical sections of SyncTimer read and change it.
 */
module GrpcServices {
  import opened Wrappers
  import opened Tasks
  import opened Placement
  import opened PlacementLaws
  import GlobalScheduler
  import HM = HyperperiodManager
  import opened HyperperiodMath
  import B = SyncBarrier

  type NodeSchedMap = map<string, seq<SchedTask>>

  function FromProto(infos: seq<TaskInfo>, workloadId: string): (tasks: seq<Task>)
    ensures |tasks| == |infos|
    ensures forall i :: 0 <= i < |infos| ==> tasks[i] == TaskFromProto(infos[i], workloadId)
  {
    seq(|infos|, i requires 0 <= i < |infos| => TaskFromProto(infos[i], workloadId))
  }

  /** What is stored for an accepted request. */
  datatype Workload = Workload(schedule: NodeSchedMap, hyperperiodUs: nat)

  /** The workload of a request; nothing when the request is rejected. */
  function WorkloadOf(cfg: Config, workloadId: string, infos: seq<TaskInfo>): Option<Workload>
  {
    var tasks := FromProto(infos, workloadId);
    var ps := HM.Periods(tasks, workloadId);
    if ps == [] || ListLcm(ps) >= U64 || ListLcm(ps) > HM.DEFAULT_LIMIT_US || tasks == [] || !cfg.loaded then None
    else
      match PlaceAll(cfg, TargetNodePriority, tasks)
      case Err(_) => None
      case Ok(run) => Some(Workload(SchedMap(run.tasks), ListLcm(ps)))
  }

  // ----- every stored workload has active nodes, all of them with tasks

  lemma AcceptedScheduleHasActiveNodes(cfg: Config, workloadId: string, infos: seq<TaskInfo>)
    requires ValidConfig(cfg) && WorkloadOf(cfg, workloadId, infos).Some?
    ensures var m := WorkloadOf(cfg, workloadId, infos).value.schedule;
      m.Keys != {} && forall n :: n in m ==> n in cfg.nodes && m[n] != []
  {
    var tasks := FromProto(infos, workloadId);
    EveryTaskIsScheduledOnce(cfg, TargetNodePriority, tasks);
    PlacementKeepsRequests(cfg, TargetNodePriority, tasks);
    var placed := PlaceAll(cfg, TargetNodePriority, tasks).value.tasks;
    assert placed[0].assignedNode in SchedMap(placed);
  }

  ghost predicate IsAccepted(cfg: Config, workloadId: string, w: Workload)
  {
    exists infos :: WorkloadOf(cfg, workloadId, infos) == Some(w)
  }

  /** Every workload in the run comes from an accepted request. */
  ghost predicate FromRequests(cfg: Config, evs: seq<B.Event>)
  {
    forall i :: 0 <= i < |evs| && evs[i].AddSchedInfo? ==>
      IsAccepted(cfg, evs[i].workloadId, Workload(evs[i].schedule, evs[i].hyperperiodUs))
  }

  ghost predicate StoresAccepted(cfg: Config, s: B.State)
  {
    forall e :: 0 <= e < |s.epochs| ==>
      IsAccepted(cfg, s.epochs[e].workloadId, Workload(s.epochs[e].schedule, s.epochs[e].hyperperiodUs))
  }

  lemma StepKeepsAccepted(cfg: Config, s: B.State, ev: B.Event)
    requires B.Inv(s) && StoresAccepted(cfg, s)
    requires ev.AddSchedInfo? ==> IsAccepted(cfg, ev.workloadId, Workload(ev.schedule, ev.hyperperiodUs))
    ensures StoresAccepted(cfg, B.Step(s, ev))
  {
    var t := B.Step(s, ev);
    forall e | 0 <= e < |t.epochs|
      ensures IsAccepted(cfg, t.epochs[e].workloadId, Workload(t.epochs[e].schedule, t.epochs[e].hyperperiodUs))
    {
      if e < |s.epochs| {
        B.EpochAfterStep(s, ev, e);
      }
    }
  }

  lemma {:induction false} RunStoresAccepted(cfg: Config, evs: seq<B.Event>)
    requires FromRequests(cfg, evs)
    ensures StoresAccepted(cfg, B.After(evs))
  {
    if evs != [] {
      var init, ev := evs[..|evs| - 1], evs[|evs| - 1];
      RunStoresAccepted(cfg, init);
      B.ReachableInv(init);
      StepKeepsAccepted(cfg, B.After(init), ev);
    }
  }

  ghost predicate HasTasks(e: B.Epoch)
  {
    B.Active(e) != {} && forall n :: n in e.schedule ==> e.schedule[n] != []
  }

  lemma AcceptedHasTasks(cfg: Config, e: B.Epoch)
    requires ValidConfig(cfg) && IsAccepted(cfg, e.workloadId, Workload(e.schedule, e.hyperperiodUs))
    ensures HasTasks(e)
  {
    var infos :| WorkloadOf(cfg, e.workloadId, infos) == Some(Workload(e.schedule, e.hyperperiodUs));
    AcceptedScheduleHasActiveNodes(cfg, e.workloadId, infos);
  }

  /** In every run over real requests each stored workload has a non-empty set of active nodes, all of
      which hold tasks, so SyncTimer never answers "no active nodes". */
  lemma StoredWorkloadsHaveActiveNodes(cfg: Config, evs: seq<B.Event>)
    requires ValidConfig(cfg) && FromRequests(cfg, evs)
    ensures forall e :: 0 <= e < |B.After(evs).epochs| ==> HasTasks(B.After(evs).epochs[e])
    ensures forall node :: B.Admission(B.After(evs), node) != Some(B.NoActiveNodes)
  {
    RunStoresAccepted(cfg, evs);
    var s := B.After(evs);
    forall e | 0 <= e < |s.epochs| ensures HasTasks(s.epochs[e]) {
      AcceptedHasTasks(cfg, s.epochs[e]);
    }
  }

  // ----- what a node downloads

  function Download(m: NodeSchedMap, node: string): seq<ScheduledTask>
  {
    if node in m then seq(|m[node]|, i requires 0 <= i < |m[node]| => ToProtoTask(m[node][i])) else []
  }

  datatype NodeSchedResponse = NodeSchedResponse(workloadId: string, hyperperiodUs: nat, tasks: seq<ScheduledTask>)

  /** The requested tasks that name the node, in request order. */
  function RequestsFor(infos: seq<TaskInfo>, node: string): seq<TaskInfo>
  {
    if infos == [] then [] else
      RequestsFor(infos[..|infos| - 1], node) + if infos[|infos| - 1].nodeId == node then [infos[|infos| - 1]] else []
  }

  /** Where the i-th request stands among those of its node. */
  function Position(infos: seq<TaskInfo>, i: nat): nat
    requires i < |infos|
  {
    |RequestsFor(infos[..i], infos[i].nodeId)|
  }

  /** The share of a CPU that a request asks for. */
  function Share(p: TaskInfo): real
  {
    if p.period <= 0 || p.runtime <= 0 then 0.0 else p.runtime as real / p.period as real
  }

  /** A mask of none or all CPUs asks for no particular one. */
  predicate AsksForCpu(p: TaskInfo)
  {
    p.cpuAffinity != 0 && p.cpuAffinity != U64_MAX
  }

  /** The CPU that a request gets beside the tasks placed before it: the lowest one of its mask, which its
      node has, if that has room, and otherwise the highest-numbered one of the node that has. */
  ghost predicate RequestedCpu(cfg: Config, before: seq<Task>, p: TaskInfo, cpu: nat)
  {
    && p.nodeId in cfg.nodes
    && (AsksForCpu(p) ==> TrailingZeros(p.cpuAffinity) in cfg.nodes[p.nodeId].availableCpus)
    && if AsksForCpu(p) && HasRoom(before, p.nodeId, TrailingZeros(p.cpuAffinity), Share(p))
       then cpu == TrailingZeros(p.cpuAffinity)
       else HighestRoom(cfg, before, p.nodeId, Share(p), cpu)
  }

  /** The tasks of the first i requests, as they are placed. */
  function PlacedBefore(cfg: Config, workloadId: string, infos: seq<TaskInfo>, i: nat)
    : Result<Run, SchedulerError>
    requires i <= |infos|
  {
    PlaceAll(cfg, TargetNodePriority, FromProto(infos, workloadId)[..i])
  }

  /** The downloaded task is the i-th request, on the CPU that it gets. */
  ghost predicate Fulfils(cfg: Config, workloadId: string, infos: seq<TaskInfo>, i: nat, out: ScheduledTask)
    requires i < |infos|
  {
    var before := PlacedBefore(cfg, workloadId, infos, i);
    before.Ok? && exists cpu: nat ::
      Delivers(out, infos[i], infos[i].nodeId, cpu) && RequestedCpu(cfg, before.value.tasks, infos[i], cpu)
  }

  /** The tasks are exactly the requested ones that name the node, in request order. */
  ghost predicate TasksAnswer(cfg: Config, workloadId: string, tasks: seq<ScheduledTask>, infos: seq<TaskInfo>,
                              node: string)
  {
    && |tasks| == |RequestsFor(infos, node)|
    && forall i :: 0 <= i < |infos| && infos[i].nodeId == node ==>
         Position(infos, i) < |tasks| && Fulfils(cfg, workloadId, infos, i, tasks[Position(infos, i)])
  }

  /** The entries of a node stand in the order of its requests. */
  lemma {:induction false} EntryStandsAt(placed: seq<Task>, infos: seq<TaskInfo>, i: nat, node: string)
    requires |placed| == |infos|
    requires forall k :: 0 <= k < |infos| ==> IsAssigned(placed[k]) && placed[k].assignedNode == infos[k].nodeId
    ensures |OnNode(placed, node)| == |RequestsFor(infos, node)|
    ensures i < |infos| && infos[i].nodeId == node ==>
      Position(infos, i) < |OnNode(placed, node)| && OnNode(placed, node)[Position(infos, i)] == ToSchedTask(placed[i])
  {
    if infos != [] {
      var n := |infos| - 1;
      EntryStandsAt(placed[..n], infos[..n], i, node);
      if i < n {
        assert infos[..n][..i] == infos[..i];
      }
    }
  }

  lemma PlacedFulfils(cfg: Config, workloadId: string, infos: seq<TaskInfo>, i: nat)
    requires ValidConfig(cfg) && WorkloadOf(cfg, workloadId, infos).Some? && i < |infos|
    ensures var placed := PlaceAll(cfg, TargetNodePriority, FromProto(infos, workloadId)).value.tasks;
      && i < |placed| && IsAssigned(placed[i]) && placed[i].assignedNode == infos[i].nodeId
      && Fulfils(cfg, workloadId, infos, i, ToProtoTask(ToSchedTask(placed[i])))
  {
    var tasks := FromProto(infos, workloadId);
    PlacedAtItsTurn(cfg, TargetNodePriority, tasks, i);
    CpuAtItsTurn(cfg, TargetNodePriority, tasks, i);
    TargetNodeIsHonoured(cfg, tasks);
    var t := PlaceAll(cfg, TargetNodePriority, tasks).value.tasks[i];
    RequestSurvivesToNode(infos[i], workloadId, t.assignedNode, t.assignedCpu.value);
    var before := PlacedBefore(cfg, workloadId, infos, i).value.tasks;
    RightIsRequested(cfg, before, infos[i], workloadId, t.assignedCpu.value);
  }

  lemma RightIsRequested(cfg: Config, before: seq<Task>, p: TaskInfo, workloadId: string, cpu: nat)
    requires RightCpu(cfg, before, TaskFromProto(p, workloadId), p.nodeId, cpu)
    ensures RequestedCpu(cfg, before, p, cpu)
  {
    ShareIsUtilization(p, workloadId);
  }

  lemma ShareIsUtilization(p: TaskInfo, workloadId: string)
    ensures Share(p) == Utilization(TaskFromProto(p, workloadId))
  {
  }

  /** The reply names the workload, carries the least common multiple of its periods and the node's tasks. */
  ghost predicate ReplyAnswers(cfg: Config, r: NodeSchedResponse, infos: seq<TaskInfo>, node: string)
  {
    && WorkloadOf(cfg, r.workloadId, infos).Some?
    && IsLcm(r.hyperperiodUs, PositivePeriods(infos))
    && TasksAnswer(cfg, r.workloadId, r.tasks, infos, node)
  }

  /** From request to download: once a request is accepted, each node downloads exactly the tasks that
      named it, in request order, with the requested timing and on the CPU that the request gets; no
      other node gets them. */
  lemma DownloadAnswersRequest(cfg: Config, workloadId: string, infos: seq<TaskInfo>, node: string)
    requires ValidConfig(cfg) && WorkloadOf(cfg, workloadId, infos).Some?
    ensures TasksAnswer(cfg, workloadId, Download(WorkloadOf(cfg, workloadId, infos).value.schedule, node), infos, node)
  {
    var tasks := FromProto(infos, workloadId);
    PlacementKeepsRequests(cfg, TargetNodePriority, tasks);
    var placed := PlaceAll(cfg, TargetNodePriority, tasks).value.tasks;
    forall k | 0 <= k < |infos| ensures IsAssigned(placed[k]) && placed[k].assignedNode == infos[k].nodeId {
      PlacedFulfils(cfg, workloadId, infos, k);
    }
    SchedMapGroupsByNode(placed, node);
    var out := Download(SchedMap(placed), node);
    EntryStandsAt(placed, infos, 0, node);
    forall i | 0 <= i < |infos| && infos[i].nodeId == node
      ensures Position(infos, i) < |out| && Fulfils(cfg, workloadId, infos, i, out[Position(infos, i)])
    {
      EntryStandsAt(placed, infos, i, node);
      PlacedFulfils(cfg, workloadId, infos, i);
    }
  }

  // ----- which requests are accepted

  function PositivePeriods(infos: seq<TaskInfo>): seq<nat>
  {
    if infos == [] then [] else
      var p := infos[|infos| - 1].period;
      PositivePeriods(infos[..|infos| - 1]) + if p > 0 then [p as nat] else []
  }

  lemma {:induction false} PeriodsOfRequest(infos: seq<TaskInfo>, workloadId: string)
    ensures HM.Periods(FromProto(infos, workloadId), workloadId) == PositivePeriods(infos)
  {
    if infos != [] {
      var init := infos[..|infos| - 1];
      PeriodsOfRequest(init, workloadId);
      assert FromProto(infos, workloadId)[..|init|] == FromProto(init, workloadId);
    }
  }

  /** The i-th request has a node that knows its CPU and, at its turn, a CPU with room. */
  ghost predicate CanHost(cfg: Config, workloadId: string, infos: seq<TaskInfo>, i: nat)
    requires i < |infos|
  {
    var p, before := infos[i], PlacedBefore(cfg, workloadId, infos, i);
    && p.nodeId != "" && p.nodeId in cfg.nodes
    && (AsksForCpu(p) ==> TrailingZeros(p.cpuAffinity) in cfg.nodes[p.nodeId].availableCpus)
    && (before.Ok? ==> exists cpu :: cpu in cfg.nodes[p.nodeId].availableCpus &&
                                     HasRoom(before.value.tasks, p.nodeId, cpu, Share(p)))
  }

  lemma HostIsFeasible(cfg: Config, workloadId: string, infos: seq<TaskInfo>, i: nat)
    requires i < |infos| && PlacedBefore(cfg, workloadId, infos, i).Ok?
    ensures CanHost(cfg, workloadId, infos, i) && workloadId != "" <==>
      !Blocked(cfg, TargetNodePriority, FromProto(infos, workloadId)[i],
               PlacedBefore(cfg, workloadId, infos, i).value.util)
  {
    var run, t := PlacedBefore(cfg, workloadId, infos, i).value, FromProto(infos, workloadId)[i];
    EveryRunKeepsInv(cfg, TargetNodePriority, FromProto(infos, workloadId)[..i]);
    CanTakeIsFeasible(cfg, run, t, infos[i].nodeId);
    ShareIsUtilization(infos[i], workloadId);
  }

  lemma PlacedExactlyWhenHosted(cfg: Config, workloadId: string, infos: seq<TaskInfo>)
    requires ValidConfig(cfg) && infos != []
    ensures PlaceAll(cfg, TargetNodePriority, FromProto(infos, workloadId)).Ok? <==>
      workloadId != "" && forall i :: 0 <= i < |infos| ==> CanHost(cfg, workloadId, infos, i)
  {
    var tasks := FromProto(infos, workloadId);
    FailsExactlyWhenBlocked(cfg, TargetNodePriority, tasks);
    if PlaceAll(cfg, TargetNodePriority, tasks).Ok? {
      forall i | 0 <= i < |infos| ensures CanHost(cfg, workloadId, infos, i) && workloadId != "" {
        RunsBeginAlike(cfg, TargetNodePriority, tasks, i);
        HostIsFeasible(cfg, workloadId, infos, i);
        assert !BlockedAt(cfg, TargetNodePriority, tasks, i);
      }
      assert CanHost(cfg, workloadId, infos, 0) && workloadId != "";
    } else {
      var k :| 0 <= k < |tasks| && BlockedAt(cfg, TargetNodePriority, tasks, k);
      HostIsFeasible(cfg, workloadId, infos, k);
    }
  }

  /** A request is accepted if and only if a configuration is loaded, the workload has a name, its positive
      periods have a common multiple within the limit, and every task finds its host. */
  lemma AcceptedExactlyWhen(cfg: Config, workloadId: string, infos: seq<TaskInfo>)
    requires ValidConfig(cfg)
    ensures WorkloadOf(cfg, workloadId, infos).Some? <==>
      && cfg.loaded && workloadId != ""
      && PositivePeriods(infos) != [] && ListLcm(PositivePeriods(infos)) <= 3_600_000_000
      && forall i :: 0 <= i < |infos| ==> CanHost(cfg, workloadId, infos, i)
  {
    PeriodsOfRequest(infos, workloadId);
    if infos != [] {
      PlacedExactlyWhenHosted(cfg, workloadId, infos);
    }
  }

  function ReplyTo(e: B.Epoch, node: string): NodeSchedResponse
  {
    NodeSchedResponse(e.workloadId, e.hyperperiodUs, Download(e.schedule, node))
  }

  /** The epoch is what the request was accepted with. */
  predicate IsStored(cfg: Config, e: B.Epoch, workloadId: string, infos: seq<TaskInfo>)
  {
    e.workloadId == workloadId && WorkloadOf(cfg, workloadId, infos) == Some(Workload(e.schedule, e.hyperperiodUs))
  }

  lemma StoredIsAnswered(cfg: Config, e: B.Epoch, workloadId: string, infos: seq<TaskInfo>, node: string)
    requires ValidConfig(cfg) && IsStored(cfg, e, workloadId, infos)
    ensures ReplyAnswers(cfg, ReplyTo(e, node), infos, node)
  {
    DownloadAnswersRequest(cfg, workloadId, infos, node);
    PeriodsOfRequest(infos, workloadId);
    ListLcmIsLcm(PositivePeriods(infos));
  }

  /** One request answers what every node would download. */
  ghost predicate AnswersEveryNode(cfg: Config, e: B.Epoch, infos: seq<TaskInfo>)
  {
    forall node :: ReplyAnswers(cfg, ReplyTo(e, node), infos, node)
  }

  /** In every run over real requests, what all nodes would download answers as a whole every request that the
      workload stored last was accepted for: its workload id, its hyperperiod and, for each node, exactly the
      tasks that name it. There is such a request. */
  lemma EveryReplyAnswersTheLatestRequest(cfg: Config, evs: seq<B.Event>)
    requires ValidConfig(cfg) && FromRequests(cfg, evs) && B.LastStored(evs).Some?
    ensures B.After(evs).epochs != [] && B.LastStored(evs).value.AddSchedInfo?
    ensures var a := B.LastStored(evs).value;
      && IsAccepted(cfg, a.workloadId, Workload(a.schedule, a.hyperperiodUs))
      && forall infos :: WorkloadOf(cfg, a.workloadId, infos) == Some(Workload(a.schedule, a.hyperperiodUs)) ==>
           AnswersEveryNode(cfg, B.Current(B.After(evs)), infos)
  {
    B.CurrentIsLastStored(evs);
    RunStoresAccepted(cfg, evs);
    var a, cur := B.LastStored(evs).value, B.Current(B.After(evs));
    forall infos | WorkloadOf(cfg, a.workloadId, infos) == Some(Workload(a.schedule, a.hyperperiodUs))
      ensures AnswersEveryNode(cfg, cur, infos)
    {
      forall node ensures ReplyAnswers(cfg, ReplyTo(cur, node), infos, node) {
        StoredIsAnswered(cfg, cur, a.workloadId, infos, node);
      }
    }
  }

  // ----- the example runs come from a real request

  const TWO_NODES := Config(map["a" := NodeConfig([0], 0), "b" := NodeConfig([0], 0)], ["a", "b"], true)

  function RequestFor(node: string): TaskInfo
  {
    TaskInfo("t", 0, 0, 0, 10, 0, 1, 10, node, 0)
  }

  lemma TwoNodesIsAccepted(id: string)
    requires id != ""
    ensures ValidConfig(TWO_NODES)
    ensures WorkloadOf(TWO_NODES, id, [RequestFor("a"), RequestFor("b")]) == Some(Workload(B.TwoNodes(), 10))
  {
    var infos := [RequestFor("a"), RequestFor("b")];
    var tasks := FromProto(infos, id);
    var ta, tb := TaskFromProto(infos[0], id), TaskFromProto(infos[1], id);
    assert tasks == [ta, tb];
    TwoNodesArePlaced(ta, tb);
    TwoNodesAreGrouped(ta, tb);
    TwoPeriods(ta, tb, id);
  }

  lemma TwoNodesArePlaced(ta: Task, tb: Task)
    requires ta.workloadId != "" && tb.workloadId != "" && ta.targetNode == "a" && tb.targetNode == "b"
    requires ta.affinity.Any? && tb.affinity.Any? && ta.memoryMb == tb.memoryMb == 0
    requires ta.periodUs == tb.periodUs == 10 && ta.runtimeUs == tb.runtimeUs == 1
    ensures PlaceAll(TWO_NODES, TargetNodePriority, [ta, tb]).Ok?
    ensures PlaceAll(TWO_NODES, TargetNodePriority, [ta, tb]).value.tasks ==
            [Assigned(ta, "a", 0), Assigned(tb, "b", 0)]
  {
    var empty := InitialUtil(TWO_NODES);
    assert [ta, tb][..1] == [ta] && [ta][..0] == [];
    assert 0 in TWO_NODES.nodes["a"].availableCpus && 0 in TWO_NODES.nodes["b"].availableCpus;
    assert Utilization(ta) == 0.1 && Utilization(tb) == 0.1;
    assert FindCpu(TWO_NODES, ta, "a", empty) == Some(0);
    var half := Charge(empty, "a", 0, 0.1);
    assert PlaceAll(TWO_NODES, TargetNodePriority, [ta]) == Ok(Run([] + [Assigned(ta, "a", 0)], half));
    assert FindCpu(TWO_NODES, tb, "b", half) == Some(0);
  }

  lemma TwoNodesAreGrouped(ta: Task, tb: Task)
    requires ta == TaskFromProto(RequestFor("a"), ta.workloadId) && tb == TaskFromProto(RequestFor("b"), tb.workloadId)
    ensures SchedMap([Assigned(ta, "a", 0), Assigned(tb, "b", 0)]) == B.TwoNodes()
  {
    var a, b := Assigned(ta, "a", 0), Assigned(tb, "b", 0);
    assert [a, b][..1] == [a] && [a][..0] == [];
    assert ToSchedTask(a) == B.TaskOn("a") && ToSchedTask(b) == B.TaskOn("b");
    assert [] + [B.TaskOn("a")] == [B.TaskOn("a")] && [] + [B.TaskOn("b")] == [B.TaskOn("b")];
    assert SchedMap([a]) == map["a" := [B.TaskOn("a")]];
    assert SchedMap([a, b]) == SchedMap([a])["b" := [B.TaskOn("b")]];
  }

  lemma TwoPeriods(ta: Task, tb: Task, id: string)
    requires ta.workloadId == tb.workloadId == id && ta.periodUs == tb.periodUs == 10
    ensures HM.Periods([ta, tb], id) == [10, 10] && ListLcm([10, 10]) == 10
  {
    assert [ta, tb][..1] == [ta] && [ta][..0] == [];
    assert HM.Periods([ta], id) == [] + [10] && HM.Periods([ta, tb], id) == HM.Periods([ta], id) + [10];
    var ten: nat := 10;
    assert [ten, ten][..1] == [ten] && [ten][..0] == [];
    LcmOfOneAndOfEqual(10);
  }

  lemma StoreIsAccepted(id: string)
    requires id != ""
    ensures ValidConfig(TWO_NODES) && IsAccepted(TWO_NODES, id, Workload(B.TwoNodes(), 10))
  {
    TwoNodesIsAccepted(id);
  }

  /** The runs that disprove agreement and all-or-nothing consist of events that the services can produce. */
  lemma ExampleRunsAreReal(evs: seq<B.Event>)
    requires forall i :: 0 <= i < |evs| && evs[i].AddSchedInfo? ==> evs[i] == B.Store("w") || evs[i] == B.Store("x")
    ensures ValidConfig(TWO_NODES) && FromRequests(TWO_NODES, evs)
  {
    StoreIsAccepted("w");
    StoreIsAccepted("x");
  }

  // ----- the services, updating the store in place

  /** One more event of a run over real requests. */
  lemma RunGoesOn(cfg: Config, evs: seq<B.Event>, ev: B.Event)
    requires FromRequests(cfg, evs)
    requires ev.AddSchedInfo? ==> IsAccepted(cfg, ev.workloadId, Workload(ev.schedule, ev.hyperperiodUs))
    ensures FromRequests(cfg, evs + [ev]) && B.After(evs + [ev]) == B.Step(B.After(evs), ev)
  {
    B.AfterExtends(evs, ev);
  }

  datatype Request = Request(workloadId: string, infos: seq<TaskInfo>)

  /** The current workload is that of the request, if there is one. */
  predicate Serves(cfg: Config, s: B.State, request: Option<Request>)
  {
    match request
    case None => s.epochs == []
    case Some(q) => s.epochs != [] && IsStored(cfg, B.Current(s), q.workloadId, q.infos)
  }

  lemma StillServes(cfg: Config, s: B.State, ev: B.Event, request: Option<Request>)
    requires Serves(cfg, s, request) && !ev.AddSchedInfo?
    ensures Serves(cfg, B.Step(s, ev), request)
  {
    B.StepKeepsCurrent(s, ev);
  }

  /** log is the run so far, so everything proved of runs holds of the fields; latest is the request that was
      accepted last. */
  class Orchestrator {
    const cfg: Config
    var epochs: seq<B.Epoch>
    var handlers: seq<B.Handler>
    ghost var log: seq<B.Event>
    ghost var latest: Option<Request>

    ghost function Abs(): B.State
      reads this
    {
      B.State(epochs, handlers)
    }

    ghost predicate Valid()
      reads this
    {
      ValidConfig(cfg) && FromRequests(cfg, log) && Abs() == B.After(log) && Serves(cfg, B.After(log), latest)
    }

    constructor (c: Config)
      requires ValidConfig(c)
      ensures Valid() && log == [] && latest == None && cfg == c
    {
      cfg := c;
      epochs, handlers, log, latest := [], [], [], None;
    }

    /** Send on the current workload's channel; without receivers nothing is stored. */
    method Broadcast(v: B.BarrierStatus)
      requires epochs != []
      modifies this`epochs
      ensures Abs() == B.Send(old(Abs()), |old(epochs)| - 1, v)
    {
      var cur := |epochs| - 1;
      if exists i :: 0 <= i < |handlers| && handlers[i].epoch == cur && B.Live(handlers[i]) {
        epochs := epochs[cur := epochs[cur].(value := v, version := epochs[cur].version + 1)];
      }
    }

    /** A rejected request changes nothing; an accepted one becomes the one that is served. */
    method AddSchedInfo(workloadId: string, infos: seq<TaskInfo>) returns (status: int)
      requires Valid()
      modifies this
      ensures Valid()
      ensures WorkloadOf(cfg, workloadId, infos).None? ==>
        status == -1 && Abs() == old(Abs()) && log == old(log) && latest == old(latest)
      ensures WorkloadOf(cfg, workloadId, infos).Some? ==>
        var w := WorkloadOf(cfg, workloadId, infos).value;
        && status == 0 && latest == Some(Request(workloadId, infos))
        && log == old(log) + [B.AddSchedInfo(workloadId, w.schedule, w.hyperperiodUs)]
    {
      var tasks := FromProto(infos, workloadId);
      var manager := new HM.Manager.WithLimit(HM.DEFAULT_LIMIT_US);
      var hyperperiod := manager.CalculateHyperperiod(workloadId, tasks);
      if hyperperiod.Err? {
        return -1;
      }
      var schedule, _ := GlobalScheduler.Schedule(cfg, tasks, "target_node_priority");
      if schedule.Err? {
        return -1;
      }
      ghost var w := Workload(schedule.value, hyperperiod.value.hyperperiodUs);
      assert WorkloadOf(cfg, workloadId, infos) == Some(w) by {
        var ps := HM.Periods(tasks, workloadId);
        ListLcmIsLcm(ps);
        LcmIsUnique(w.hyperperiodUs, ListLcm(ps), ps, ps);
      }
      Replace(workloadId, schedule.value, hyperperiod.value.hyperperiodUs, infos);
      status := 0;
    }

    /** The locked part of AddSchedInfo: cancel the old barrier, then store the new workload. */
    method Replace(workloadId: string, schedule: NodeSchedMap, hyperperiodUs: nat, ghost infos: seq<TaskInfo>)
      requires Valid() && WorkloadOf(cfg, workloadId, infos) == Some(Workload(schedule, hyperperiodUs))
      modifies this
      ensures Valid() && log == old(log) + [B.AddSchedInfo(workloadId, schedule, hyperperiodUs)]
      ensures latest == Some(Request(workloadId, infos))
    {
      RunGoesOn(cfg, log, B.AddSchedInfo(workloadId, schedule, hyperperiodUs));
      if epochs != [] {
        Broadcast(B.Cancelled);
      }
      epochs := epochs + [B.NewEpoch(workloadId, schedule, hyperperiodUs)];
      log := log + [B.AddSchedInfo(workloadId, schedule, hyperperiodUs)];
      latest := Some(Request(workloadId, infos));
    }

    /** A reply exactly when a request was accepted, and then the current workload's, which answers the request
        accepted last. */
    method GetSchedInfo(node: string) returns (r: Option<NodeSchedResponse>)
      requires Valid()
      ensures r.None? <==> latest.None?
      ensures r.Some? ==> epochs != [] && r.value == ReplyTo(B.Current(Abs()), node)
      ensures r.Some? ==>
        r.value.workloadId == latest.value.workloadId && ReplyAnswers(cfg, r.value, latest.value.infos, node)
    {
      if epochs == [] {
        return None;
      }
      var ws := epochs[|epochs| - 1];
      r := Some(NodeSchedResponse(ws.workloadId, ws.hyperperiodUs, Download(ws.schedule, node)));
      StoredIsAnswered(cfg, ws, latest.value.workloadId, latest.value.infos, node);
    }

    /** The locked part of SyncTimer: refuse, or register and perhaps release. */
    method CheckIn(node: string, nowNs: nat) returns (r: Result<nat, B.Refusal>)
      requires Valid()
      modifies this
      ensures Valid() && log == old(log) + [B.SyncTimer(node, nowNs)] && latest == old(latest)
      ensures old(epochs) == [] ==> r == Err(B.NoWorkload)
      ensures old(epochs) != [] && old(epochs)[|old(epochs)| - 1].schedule == map[] ==> r == Err(B.NoActiveNodes)
      ensures old(epochs) != [] && old(epochs)[|old(epochs)| - 1].schedule != map[] ==>
        r == if node in old(epochs)[|old(epochs)| - 1].schedule then Ok(|old(handlers)|) else Err(B.NotActive)
    {
      r := Register(node, nowNs);
      Record(old(Abs()), B.SyncTimer(node, nowNs));
    }

    /** The top of the wait loop: read the barrier, return or go on to wait. */
    method ReadBarrier(h: nat)
      requires Valid() && h < |handlers| && handlers[h].phase == B.Reading
      modifies this
      ensures Valid() && log == old(log) + [B.Read(h)] && latest == old(latest)
    {
      B.EpochExists(log, h);
      Observe(h);
      Record(old(Abs()), B.Read(h));
    }

    /** The locked part of a timeout. */
    method TimeOut(h: nat)
      requires Valid() && h < |handlers| && handlers[h].phase == B.Expired
      modifies this
      ensures Valid() && log == old(log) + [B.Expire(h)] && latest == old(latest)
    {
      B.EpochExists(log, h);
      GiveUp(h);
      Record(old(Abs()), B.Expire(h));
    }

    // What these three do to the store and the calls.

    method Register(node: string, nowNs: nat) returns (r: Result<nat, B.Refusal>)
      modifies this`epochs, this`handlers
      ensures Abs() == B.Step(old(Abs()), B.SyncTimer(node, nowNs))
      ensures old(epochs) == [] ==> r == Err(B.NoWorkload)
      ensures old(epochs) != [] && old(epochs)[|old(epochs)| - 1].schedule == map[] ==> r == Err(B.NoActiveNodes)
      ensures old(epochs) != [] && old(epochs)[|old(epochs)| - 1].schedule != map[] ==>
        r == if node in old(epochs)[|old(epochs)| - 1].schedule then Ok(|old(handlers)|) else Err(B.NotActive)
    {
      if epochs == [] {
        return Err(B.NoWorkload);
      }
      var cur := |epochs| - 1;
      var active := epochs[cur].schedule.Keys;
      if active == {} {
        return Err(B.NoActiveNodes);
      }
      if node !in active {
        return Err(B.NotActive);
      }
      r := Ok(|handlers|);
      handlers := handlers + [B.Handler(node, cur, B.Reading, 0)];
      epochs := epochs[cur := epochs[cur].(synced := epochs[cur].synced + {node})];
      assert Abs() == B.Registered(old(Abs()), node);
      if active <= epochs[cur].synced {
        Broadcast(B.ReleaseAt(nowNs));
      }
    }

    method Observe(h: nat)
      requires h < |handlers| && handlers[h].phase == B.Reading && handlers[h].epoch < |epochs|
      modifies this`handlers
      ensures Abs() == B.Step(old(Abs()), B.Read(h))
    {
      var x := handlers[h];
      var phase := match epochs[x.epoch].value
        case Released(sec, nsec) => B.Done(B.Ack(sec, nsec))
        case Cancelled => B.Done(B.Aborted)
        case TimedOut => B.Done(B.DeadlineExceeded)
        case Waiting => B.Selecting(epochs[x.epoch].version);
      handlers := handlers[h := x.(phase := phase, bodies := x.bodies + 1)];
    }

    method GiveUp(h: nat)
      requires h < |handlers| && handlers[h].phase == B.Expired && handlers[h].epoch < |epochs|
      modifies this`epochs, this`handlers
      ensures Abs() == B.Step(old(Abs()), B.Expire(h))
    {
      Broadcast(B.TimedOut);
      handlers := handlers[h := handlers[h].(phase := B.Done(B.DeadlineExceeded))];
    }

    /** The step that the fields have just made joins the run. */
    ghost method Record(before: B.State, ev: B.Event)
      requires ValidConfig(cfg) && FromRequests(cfg, log) && before == B.After(log) && Serves(cfg, before, latest)
      requires !ev.AddSchedInfo? && Abs() == B.Step(before, ev)
      modifies this`log
      ensures Valid() && log == old(log) + [ev]
    {
      RunGoesOn(cfg, log, ev);
      StillServes(cfg, before, ev, latest);
      log := log + [ev];
    }
  }
}
