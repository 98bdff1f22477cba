/**
 The schedule on the wire: what the C++ orchestrator serializes and what a node deserializes.
 Text is bytes; numbers keep their C widths through the serial buffer.
 */
module ScheduleWire {
  import opened Wrappers
  import opened SerialBuffer

  const NAME_MAX: nat := 16
  const NODE_ID_MAX: nat := 64
  const WORKLOAD_ID_MAX: nat := 64

  /** One task as the orchestrator holds it. */
  datatype SchedTask = SchedTask(
    taskName: seq<Byte>,
    periodNs: nat,
    runtimeNs: nat,
    deadlineNs: nat,
    releaseTime: int,
    cpuAffinity: nat,
    schedPolicy: int,
    schedPriority: int,
    maxDmiss: int,
    assignedNode: seq<Byte>)

  /** The tasks of each node, in the order in which the ordered map is walked. */
  datatype NodeSchedule = NodeSchedule(nodeId: seq<Byte>, tasks: seq<SchedTask>)

  datatype Schedule = Schedule(workloadId: seq<Byte>, hyperperiodUs: nat, nodes: seq<NodeSchedule>)

  /** One task as the node receives it: unsigned fields. */
  datatype TaskInfo = TaskInfo(
    name: seq<Byte>,
    schedPriority: nat,
    schedPolicy: nat,
    period: nat,
    releaseTime: nat,
    runtime: nat,
    deadline: nat,
    cpuAffinity: nat,
    allowableDeadlineMisses: nat,
    nodeId: seq<Byte>)

  datatype SchedInfo = SchedInfo(workloadId: seq<Byte>, hyperperiodUs: nat, nrTasks: nat, tasks: seq<TaskInfo>)

  // ----- what the orchestrator writes

  /** A string cut to fit a C array of the given size, terminator included. */
  function Cut(s: seq<Byte>, size: nat): (t: seq<Byte>)
    requires size > 0
    ensures |t| < size && t <= s
    ensures t == CStr(t)
    ensures 0 !in s && |s| < size ==> t == s
    ensures |s| >= size && 0 !in s[..size - 1] ==> t == s[..size - 1]
  {
    var t := CStr(if |s| < size then s else s[..size - 1]);
    NoNulIsWhole(t);
    t
  }

  lemma {:induction false} NoNulIsWhole(t: seq<Byte>)
    requires 0 !in t
    ensures CStr(t) == t
  {
  }

  /** The name and the six numbers that are written first. */
  function PushTiming(bs: seq<Byte>, t: SchedTask): seq<Byte>
  {
    var b := PushStr(bs, Cut(t.taskName, NAME_MAX));
    var b := PushInt(b, t.schedPriority, 4);
    var b := PushInt(b, t.schedPolicy, 4);
    var b := PushInt(b, t.periodNs / 1000, 4);
    var b := PushInt(b, t.releaseTime, 4);
    var b := PushInt(b, t.runtimeNs / 1000, 4);
    PushInt(b, t.deadlineNs / 1000, 4)
  }

  function PushTask(bs: seq<Byte>, t: SchedTask): seq<Byte>
  {
    var b := PushTiming(bs, t);
    var b := PushInt(b, t.cpuAffinity, 8);
    var b := PushInt(b, t.maxDmiss, 4);
    PushStr(b, Cut(t.assignedNode, NODE_ID_MAX))
  }

  function PushTasks(bs: seq<Byte>, tasks: seq<SchedTask>): seq<Byte>
  {
    PushEach(PushTask, bs, tasks)
  }

  function AllTasks(nodes: seq<NodeSchedule>): seq<SchedTask>
  {
    if nodes == [] then [] else AllTasks(nodes[..|nodes| - 1]) + nodes[|nodes| - 1].tasks
  }

  /** How many tasks the first n nodes hold. */
  function CountBefore(nodes: seq<NodeSchedule>, n: nat): nat
    requires n <= |nodes|
  {
    if n == 0 then 0 else CountBefore(nodes, n - 1) + |nodes[n - 1].tasks|
  }

  lemma {:induction false} CountOfPrefix(nodes: seq<NodeSchedule>, m: nat, n: nat)
    requires n <= m <= |nodes|
    ensures CountBefore(nodes[..m], n) == CountBefore(nodes, n)
  {
    if n > 0 {
      CountOfPrefix(nodes, m, n - 1);
    }
  }

  lemma {:induction false} AllTasksAreCounted(nodes: seq<NodeSchedule>)
    ensures |AllTasks(nodes)| == CountBefore(nodes, |nodes|)
  {
    if nodes != [] {
      AllTasksAreCounted(nodes[..|nodes| - 1]);
      CountOfPrefix(nodes, |nodes| - 1, |nodes| - 1);
    }
  }

  /** Task j of node i stands after all tasks of the nodes before i. */
  lemma {:induction false} TaskStandsAt(nodes: seq<NodeSchedule>, i: nat, j: nat)
    requires i < |nodes| && j < |nodes[i].tasks|
    ensures CountBefore(nodes, i) + j < |AllTasks(nodes)|
    ensures AllTasks(nodes)[CountBefore(nodes, i) + j] == nodes[i].tasks[j]
  {
    var init := nodes[..|nodes| - 1];
    CountOfPrefix(nodes, |nodes| - 1, i);
    if i < |init| {
      TaskStandsAt(init, i, j);
    } else {
      AllTasksAreCounted(init);
    }
  }

  function Encode(s: Schedule): seq<Byte>
  {
    var b := PushInt([], s.hyperperiodUs, 8);
    var b := PushStr(b, Cut(s.workloadId, WORKLOAD_ID_MAX));
    var b := PushTasks(b, AllTasks(s.nodes));
    PushInt(b, |AllTasks(s.nodes)|, 4)
  }

  method SerializeTask(buf: SerialBuf, t: SchedTask)
    requires buf.Valid()
    modifies buf, buf.data
    ensures buf.Valid() && buf.Contents() == PushTask(old(buf.Contents()), t)
    ensures buf.data == old(buf.data) || fresh(buf.data)
  {
    SerializeTiming(buf, t);
    buf.SerializeInt(t.cpuAffinity, 8);
    buf.SerializeInt(t.maxDmiss, 4);
    buf.SerializeStr(Cut(t.assignedNode, NODE_ID_MAX));
  }

  method SerializeTiming(buf: SerialBuf, t: SchedTask)
    requires buf.Valid()
    modifies buf, buf.data
    ensures buf.Valid() && buf.Contents() == PushTiming(old(buf.Contents()), t)
    ensures buf.data == old(buf.data) || fresh(buf.data)
  {
    buf.SerializeStr(Cut(t.taskName, NAME_MAX));
    buf.SerializeInt(t.schedPriority, 4);
    buf.SerializeInt(t.schedPolicy, 4);
    buf.SerializeInt(t.periodNs / 1000, 4);
    buf.SerializeInt(t.releaseTime, 4);
    buf.SerializeInt(t.runtimeNs / 1000, 4);
    buf.SerializeInt(t.deadlineNs / 1000, 4);
  }

  method SerializeSchedule(s: Schedule) returns (buf: SerialBuf)
    ensures fresh(buf) && fresh(buf.data) && buf.Valid()
    ensures buf.Contents() == Encode(s)
  {
    buf := new SerialBuf.New(1024 + 256);
    buf.SerializeInt(s.hyperperiodUs, 8);
    buf.SerializeStr(Cut(s.workloadId, WORKLOAD_ID_MAX));
    var nrTasks := SerializeNodes(buf, s.nodes);
    buf.SerializeInt(nrTasks, 4);
  }

  method SerializeNodes(buf: SerialBuf, nodes: seq<NodeSchedule>) returns (nrTasks: nat)
    requires buf.Valid()
    modifies buf, buf.data
    ensures buf.Valid() && buf.Contents() == PushTasks(old(buf.Contents()), AllTasks(nodes))
    ensures nrTasks == |AllTasks(nodes)| == CountBefore(nodes, |nodes|)
    ensures buf.data == old(buf.data) || fresh(buf.data)
  {
    nrTasks := 0;
    for i := 0 to |nodes|
      invariant buf.Valid() && (buf.data == old(buf.data) || fresh(buf.data))
      invariant nrTasks == |AllTasks(nodes[..i])|
      invariant buf.Contents() == PushTasks(old(buf.Contents()), AllTasks(nodes[..i]))
    {
      SerializeNode(buf, nodes[i].tasks);
      assert nodes[..i + 1][..i] == nodes[..i];
      PushEachInParts(PushTask, old(buf.Contents()), AllTasks(nodes[..i]), nodes[i].tasks);
      nrTasks := nrTasks + |nodes[i].tasks|;
    }
    assert nodes[..|nodes|] == nodes;
    AllTasksAreCounted(nodes);
  }

  method SerializeNode(buf: SerialBuf, tasks: seq<SchedTask>)
    requires buf.Valid()
    modifies buf, buf.data
    ensures buf.Valid() && buf.Contents() == PushTasks(old(buf.Contents()), tasks)
    ensures buf.data == old(buf.data) || fresh(buf.data)
  {
    for i := 0 to |tasks|
      invariant buf.Valid() && (buf.data == old(buf.data) || fresh(buf.data))
      invariant buf.Contents() == PushTasks(old(buf.Contents()), tasks[..i])
    {
      SerializeTask(buf, tasks[i]);
      assert tasks[..i + 1][..i] == tasks[..i];
    }
    assert tasks[..|tasks|] == tasks;
  }

  // ----- what the node reads

  function PopTask(bs: seq<Byte>): Option<(TaskInfo, seq<Byte>)>
  {
    var (nodeId, b) :- PopBlob(bs);
    var (dmiss, b) :- PopInt(b, 4);
    var (affinity, b) :- PopInt(b, 8);
    var (deadline, b) :- PopInt(b, 4);
    var (runtime, b) :- PopInt(b, 4);
    var (release, b) :- PopInt(b, 4);
    var (period, b) :- PopInt(b, 4);
    var (policy, b) :- PopInt(b, 4);
    var (priority, b) :- PopInt(b, 4);
    var (name, b) :- PopBlob(b);
    Some((TaskInfo(name, priority, policy, period, release, runtime, deadline, affinity, dmiss, nodeId), b))
  }

  function PopTasks(bs: seq<Byte>, n: nat, list: seq<TaskInfo>): Option<(seq<TaskInfo>, seq<Byte>)>
  {
    PopEach(PopTask, bs, n, list)
  }

  function Decode(bs: seq<Byte>): Option<(SchedInfo, seq<Byte>)>
  {
    var (n, b) :- PopInt(bs, 4);
    var (tasks, b) :- PopTasks(b, n, []);
    var (workloadId, b) :- PopBlob(b);
    var (hyperperiod, b) :- PopInt(b, 8);
    Some((SchedInfo(workloadId, hyperperiod, n, tasks), b))
  }

  method DeserializeTask(buf: SerialBuf) returns (r: Option<TaskInfo>)
    requires buf.Valid()
    modifies buf`pos
    ensures buf.Valid()
    ensures r.Some? == PopTask(old(buf.Contents())).Some?
    ensures r.Some? ==> PopTask(old(buf.Contents())) == Some((r.value, buf.Contents()))
  {
    var ok, nodeId := buf.DeserializeBlob();
    if !ok { return None; }
    var dmiss, affinity, deadline, runtime, release, period, policy, priority;
    ok, dmiss := buf.DeserializeInt(4);
    if !ok { return None; }
    ok, affinity := buf.DeserializeInt(8);
    if !ok { return None; }
    ok, deadline := buf.DeserializeInt(4);
    if !ok { return None; }
    ok, runtime := buf.DeserializeInt(4);
    if !ok { return None; }
    ok, release := buf.DeserializeInt(4);
    if !ok { return None; }
    ok, period := buf.DeserializeInt(4);
    if !ok { return None; }
    ok, policy := buf.DeserializeInt(4);
    if !ok { return None; }
    ok, priority := buf.DeserializeInt(4);
    if !ok { return None; }
    var name;
    ok, name := buf.DeserializeBlob();
    if !ok { return None; }
    r := Some(TaskInfo(name, priority, policy, period, release, runtime, deadline, affinity, dmiss, nodeId));
  }

  /** None is the network error of the original; the partly built list is discarded. */
  method DeserializeSchedInfo(buf: SerialBuf) returns (r: Option<SchedInfo>)
    requires buf.Valid()
    modifies buf`pos
    ensures buf.Valid()
    ensures r.Some? == Decode(old(buf.Contents())).Some?
    ensures r.Some? ==> Decode(old(buf.Contents())) == Some((r.value, buf.Contents()))
  {
    var ok, n := buf.DeserializeInt(4);
    if !ok { return None; }
    var list: seq<TaskInfo> := [];
    ghost var goal := PopTasks(buf.Contents(), n, []);
    var i := 0;
    while i < n
      invariant buf.Valid() && 0 <= i <= n
      invariant PopTasks(buf.Contents(), n - i, list) == goal
    {
      var t := DeserializeTask(buf);
      if t.None? { return None; }
      list := [t.value] + list;
      i := i + 1;
    }
    var workloadId, hyperperiod;
    ok, workloadId := buf.DeserializeBlob();
    if !ok { return None; }
    ok, hyperperiod := buf.DeserializeInt(8);
    if !ok { return None; }
    r := Some(SchedInfo(workloadId, hyperperiod, n, list));
  }

  // ----- the round trip

  function View(t: SchedTask): TaskInfo
  {
    TaskInfo(Cut(t.taskName, NAME_MAX), Wrap(t.schedPriority, 4), Wrap(t.schedPolicy, 4),
             Wrap(t.periodNs / 1000, 4), Wrap(t.releaseTime, 4), Wrap(t.runtimeNs / 1000, 4),
             Wrap(t.deadlineNs / 1000, 4), Wrap(t.cpuAffinity, 8), Wrap(t.maxDmiss, 4),
             Cut(t.assignedNode, NODE_ID_MAX))
  }

  function Views(ts: seq<SchedTask>): seq<TaskInfo>
  {
    Map(View, ts)
  }

  lemma PopCutUndoesPush(bs: seq<Byte>, s: seq<Byte>, size: nat)
    requires 0 < size <= 64
    ensures PopBlob(PushStr(bs, Cut(s, size))) == Some((Cut(s, size), bs))
  {
    PopStrUndoesPush(bs, Cut(s, size));
    ShortIsStoredWhole(Cut(s, size));
  }

  lemma PopTaskUndoesPush(bs: seq<Byte>, t: SchedTask)
    ensures PopTask(PushTask(bs, t)) == Some((View(t), bs))
  {
    PopCutUndoesPush(bs, t.taskName, NAME_MAX);
    var b1 := PushStr(bs, Cut(t.taskName, NAME_MAX));
    PopIntUndoesPush(b1, t.schedPriority, 4);
    var b2 := PushInt(b1, t.schedPriority, 4);
    PopIntUndoesPush(b2, t.schedPolicy, 4);
    var b3 := PushInt(b2, t.schedPolicy, 4);
    PopIntUndoesPush(b3, t.periodNs / 1000, 4);
    var b4 := PushInt(b3, t.periodNs / 1000, 4);
    PopIntUndoesPush(b4, t.releaseTime, 4);
    var b5 := PushInt(b4, t.releaseTime, 4);
    PopIntUndoesPush(b5, t.runtimeNs / 1000, 4);
    var b6 := PushInt(b5, t.runtimeNs / 1000, 4);
    PopIntUndoesPush(b6, t.deadlineNs / 1000, 4);
    var b7 := PushInt(b6, t.deadlineNs / 1000, 4);
    PopIntUndoesPush(b7, t.cpuAffinity, 8);
    var b8 := PushInt(b7, t.cpuAffinity, 8);
    PopIntUndoesPush(b8, t.maxDmiss, 4);
    var b9 := PushInt(b8, t.maxDmiss, 4);
    PopCutUndoesPush(b9, t.assignedNode, NODE_ID_MAX);
  }

  lemma PopTasksUndoesPush(bs: seq<Byte>, tasks: seq<SchedTask>)
    ensures PopTasks(PushTasks(bs, tasks), |tasks|, []) == Some((Views(tasks), bs))
  {
    forall b, t ensures PopTask(PushTask(b, t)) == Some((View(t), b)) {
      PopTaskUndoesPush(b, t);
    }
    PopEachUndoesPush(PushTask, PopTask, View, bs, tasks, []);
    assert Views(tasks) + [] == Views(tasks);
  }

  /** What a node should end up with. */
  function Received(s: Schedule): SchedInfo
  {
    SchedInfo(Cut(s.workloadId, WORKLOAD_ID_MAX), Wrap(s.hyperperiodUs, 8), |AllTasks(s.nodes)|,
              Views(AllTasks(s.nodes)))
  }

  /** Deserializing a serialized schedule yields its workload, hyperperiod, count and tasks in the
      original order and consumes every byte. The task counter is a C int. */
  lemma ScheduleRoundTrip(s: Schedule)
    requires |AllTasks(s.nodes)| < 0x8000_0000
    ensures Decode(Encode(s)) == Some((Received(s), []))
  {
    var all := AllTasks(s.nodes);
    var b1 := PushInt([], s.hyperperiodUs, 8);
    var b2 := PushStr(b1, Cut(s.workloadId, WORKLOAD_ID_MAX));
    var b3 := PushTasks(b2, all);
    CountFits(|all|);
    PopIntUndoesPush(b3, |all|, 4);
    PopTasksUndoesPush(b2, all);
    PopCutUndoesPush(b1, s.workloadId, WORKLOAD_ID_MAX);
    PopIntUndoesPush([], s.hyperperiodUs, 8);
    DecodeInParts(PushInt(b3, |all|, 4), b3, b2, b1, Received(s));
  }

  /** The same without naming the list: every task of every node arrives, in node order and then in task
      order, and nothing else does. */
  ghost predicate Arrives(r: SchedInfo, s: Schedule)
  {
    && r.workloadId == Cut(s.workloadId, WORKLOAD_ID_MAX) && r.hyperperiodUs == Wrap(s.hyperperiodUs, 8)
    && r.nrTasks == CountBefore(s.nodes, |s.nodes|) && TasksArrive(r.tasks, s.nodes)
  }

  ghost predicate TasksArrive(tasks: seq<TaskInfo>, nodes: seq<NodeSchedule>)
  {
    && |tasks| == CountBefore(nodes, |nodes|)
    && forall i, j :: 0 <= i < |nodes| && 0 <= j < |nodes[i].tasks| ==> TaskArrives(tasks, nodes, i, j)
  }

  ghost predicate TaskArrives(tasks: seq<TaskInfo>, nodes: seq<NodeSchedule>, i: nat, j: nat)
    requires i < |nodes| && j < |nodes[i].tasks|
  {
    var k := CountBefore(nodes, i) + j;
    k < |tasks| && tasks[k] == View(nodes[i].tasks[j])
  }

  lemma EveryTaskArrives(s: Schedule)
    requires CountBefore(s.nodes, |s.nodes|) < 0x8000_0000
    ensures Decode(Encode(s)).Some?
    ensures var (r, rest) := Decode(Encode(s)).value; rest == [] && Arrives(r, s)
  {
    AllTasksAreCounted(s.nodes);
    ScheduleRoundTrip(s);
    ViewsArrive(s.nodes);
  }

  lemma {:induction false} ViewsArrive(nodes: seq<NodeSchedule>)
    ensures TasksArrive(Views(AllTasks(nodes)), nodes)
  {
    AllTasksAreCounted(nodes);
    forall i, j | 0 <= i < |nodes| && 0 <= j < |nodes[i].tasks|
      ensures TaskArrives(Views(AllTasks(nodes)), nodes, i, j)
    {
      ViewArrives(nodes, i, j);
    }
  }

  lemma {:induction false} ViewArrives(nodes: seq<NodeSchedule>, i: nat, j: nat)
    requires i < |nodes| && j < |nodes[i].tasks|
    ensures TaskArrives(Views(AllTasks(nodes)), nodes, i, j)
  {
    TaskStandsAt(nodes, i, j);
    ViewStandsAt(AllTasks(nodes), CountBefore(nodes, i) + j);
  }

  lemma ViewStandsAt(ts: seq<SchedTask>, k: nat)
    requires k < |ts|
    ensures k < |Views(ts)| && Views(ts)[k] == View(ts[k])
  {
  }

  lemma CountFits(n: nat)
    requires n < U32
    ensures Wrap(n, 4) == n
  {
  }

  lemma DecodeInParts(bs: seq<Byte>, b3: seq<Byte>, b2: seq<Byte>, b1: seq<Byte>, r: SchedInfo)
    requires PopInt(bs, 4) == Some((r.nrTasks, b3)) && PopTasks(b3, r.nrTasks, []) == Some((r.tasks, b2))
    requires PopBlob(b2) == Some((r.workloadId, b1)) && PopInt(b1, 8) == Some((r.hyperperiodUs, []))
    ensures Decode(bs) == Some((r, []))
  {
  }

  lemma PushesOnlyAppend(bs: seq<Byte>, t: SchedTask)
    ensures bs <= PushTask(bs, t)
  {
    TimingOnlyAppends(bs, t);
    var b1 := PushTiming(bs, t);
    var b2 := PushInt(b1, t.cpuAffinity, 8);
    var b3 := PushInt(b2, t.maxDmiss, 4);
    PushAppends(b1, t.cpuAffinity, 8);
    PushAppends(b2, t.maxDmiss, 4);
    StrAppends(b3, Cut(t.assignedNode, NODE_ID_MAX));
    PrefixOfAll(bs, b1, b2, b3);
    PrefixOfAll(bs, b3, b3, PushTask(bs, t));
  }

  lemma TimingOnlyAppends(bs: seq<Byte>, t: SchedTask)
    ensures bs <= PushTiming(bs, t)
  {
    var b1 := PushStr(bs, Cut(t.taskName, NAME_MAX));
    StrAppends(bs, Cut(t.taskName, NAME_MAX));
    var b2 := PushInt(b1, t.schedPriority, 4);
    var b3 := PushInt(b2, t.schedPolicy, 4);
    PushAppends(b1, t.schedPriority, 4);
    PushAppends(b2, t.schedPolicy, 4);
    PrefixOfAll(bs, b1, b2, b3);
    var b4 := PushInt(b3, t.periodNs / 1000, 4);
    var b5 := PushInt(b4, t.releaseTime, 4);
    PushAppends(b3, t.periodNs / 1000, 4);
    PushAppends(b4, t.releaseTime, 4);
    PrefixOfAll(bs, b3, b4, b5);
    var b6 := PushInt(b5, t.runtimeNs / 1000, 4);
    PushAppends(b5, t.runtimeNs / 1000, 4);
    PushAppends(b6, t.deadlineNs / 1000, 4);
    PrefixOfAll(bs, b5, b6, PushTiming(bs, t));
  }

  lemma TasksOnlyAppend(bs: seq<Byte>, tasks: seq<SchedTask>)
    ensures bs <= PushTasks(bs, tasks)
  {
    forall b, t ensures b <= PushTask(b, t) {
      PushesOnlyAppend(b, t);
    }
    PushEachOnlyAppends(PushTask, bs, tasks);
  }

  lemma HyperperiodComesFirst(s: Schedule)
    ensures BigEndian(Wrap(s.hyperperiodUs, 8), 8) <= Encode(s)
  {
    var all := AllTasks(s.nodes);
    var first := PushInt([], s.hyperperiodUs, 8);
    var b := PushStr(first, Cut(s.workloadId, WORKLOAD_ID_MAX));
    PushAppends([], s.hyperperiodUs, 8);
    StrAppends(first, Cut(s.workloadId, WORKLOAD_ID_MAX));
    TasksOnlyAppend(b, all);
    PushAppends(PushTasks(b, all), |all|, 4);
    PrefixOfAll(first, b, PushTasks(b, all), PushInt(PushTasks(b, all), |all|, 4));
  }

  lemma PushAppends(bs: seq<Byte>, v: int, w: Width)
    ensures bs <= PushInt(bs, v, w) && PushInt(bs, v, w)[|bs|..] == BigEndian(Wrap(v, w), w)
  {
  }

  lemma StrAppends(bs: seq<Byte>, t: seq<Byte>)
    ensures bs <= PushStr(bs, t)
  {
  }

  lemma PrefixOfAll(a: seq<Byte>, b: seq<Byte>, c: seq<Byte>, d: seq<Byte>)
    requires a <= b <= c <= d
    ensures a <= d
  {
  }

  /** Schedules that differ in their hyperperiods alone have equal bytes exactly when those agree in 64 bits. */
  lemma HyperperiodShows(workloadId: seq<Byte>, nodes: seq<NodeSchedule>, h: nat, k: nat)
    ensures Encode(Schedule(workloadId, h, nodes)) == Encode(Schedule(workloadId, k, nodes)) <==>
            Wrap(h, 8) == Wrap(k, 8)
  {
    HyperperiodComesFirst(Schedule(workloadId, h, nodes));
    HyperperiodComesFirst(Schedule(workloadId, k, nodes));
    BigEndianRoundTrip(Wrap(h, 8), 8);
    BigEndianRoundTrip(Wrap(k, 8), 8);
    if Encode(Schedule(workloadId, h, nodes)) == Encode(Schedule(workloadId, k, nodes)) {
      SameFront(BigEndian(Wrap(h, 8), 8), BigEndian(Wrap(k, 8), 8), Encode(Schedule(workloadId, h, nodes)));
    }
  }

  lemma SameFront(a: seq<Byte>, b: seq<Byte>, s: seq<Byte>)
    requires |a| == |b| && a <= s && b <= s
    ensures a == b
  {
  }

  /** Names longer than 15 bytes and node ids longer than 63 are cut there. */
  lemma LongNamesAreCut(t: SchedTask)
    requires 0 !in t.taskName && 0 !in t.assignedNode
    ensures View(t).name == if |t.taskName| <= 15 then t.taskName else t.taskName[..15]
    ensures View(t).nodeId == if |t.assignedNode| <= 63 then t.assignedNode else t.assignedNode[..63]
  {
  }

  /** The node's tasks are exactly the orchestrator's where the fields fit: strings shorter than the
      arrays and free of NUL, counts and times below the field widths. */
  lemma FittingFieldsArriveUnchanged(t: SchedTask)
    requires 0 !in t.taskName && |t.taskName| < NAME_MAX && 0 !in t.assignedNode && |t.assignedNode| < NODE_ID_MAX
    requires 0 <= t.schedPriority < U32 && 0 <= t.schedPolicy < U32 && 0 <= t.releaseTime < U32 && 0 <= t.maxDmiss < U32
    requires t.periodNs / 1000 < U32 && t.runtimeNs / 1000 < U32 && t.deadlineNs / 1000 < U32
    requires t.cpuAffinity < 0x1_0000_0000_0000_0000
    ensures View(t) == TaskInfo(t.taskName, t.schedPriority, t.schedPolicy, t.periodNs / 1000, t.releaseTime,
                                t.runtimeNs / 1000, t.deadlineNs / 1000, t.cpuAffinity, t.maxDmiss, t.assignedNode)
  {
    WidthLimits();
    NoNulIsWhole(t.taskName);
    NoNulIsWhole(t.assignedNode);
  }
}
