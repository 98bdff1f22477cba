/**
 The task records of the Rust orchestrator: the request fields, the working copy that the
 scheduler fills in, the nanosecond form it stores and the form a node downloads.
 */
module Tasks {
  import opened Wrappers
  import opened Division

  const U64_MAX: nat := 0xFFFF_FFFF_FFFF_FFFF
  const I32_MIN: int := -0x8000_0000
  const I32_MAX: int := 0x7FFF_FFFF

  newtype Int32 = x: int | I32_MIN <= x <= I32_MAX

  datatype SchedPolicy = Normal | Fifo | RoundRobin

  datatype CpuAffinity = Any | Pinned(mask: nat)

  datatype Task = Task(
    name: string,
    workloadId: string,
    targetNode: string,
    policy: SchedPolicy,
    priority: Int32,
    affinity: CpuAffinity,
    memoryMb: nat,
    periodUs: nat,
    runtimeUs: nat,
    deadlineUs: nat,
    releaseTimeUs: nat,
    maxDmiss: Int32,
    assignedNode: string,
    assignedCpu: Option<nat>)

  /** Exact CPU share of a task; a task without a period counts as no load. */
  function Utilization(t: Task): (u: real)
    ensures u >= 0.0
    ensures t.periodUs == 0 ==> u == 0.0
  {
    if t.periodUs == 0 then 0.0 else t.runtimeUs as real / t.periodUs as real
  }

  /** The share times the period is the runtime. */
  lemma UtilizationIsShare(t: Task)
    requires t.periodUs != 0
    ensures Utilization(t) * t.periodUs as real == t.runtimeUs as real
  {
    var r, p := t.runtimeUs as real, t.periodUs as real;
    assert (r / p) * p == r;
  }

  predicate IsAssigned(t: Task)
  {
    t.assignedNode != "" && t.assignedCpu.Some?
  }

  /** Index of the lowest set bit; 64 for an empty mask, as the machine instruction answers. */
  function TrailingZeros(mask: nat): (k: nat)
    ensures mask != 0 ==> (mask / Pow2(k)) % 2 == 1
    ensures mask != 0 ==> mask % Pow2(k) == 0
  {
    if mask == 0 then 64
    else if mask % 2 == 1 then 0
    else
      var k := TrailingZeros(mask / 2);
      HalveAgain(mask, k);
      k + 1
  }

  function Pow2(k: nat): (p: nat)
    ensures p > 0
  {
    if k == 0 then 1 else 2 * Pow2(k - 1)
  }

  /** Dividing an even number by 2^(k+1) is dividing its half by 2^k, remainder included. */
  lemma HalveAgain(n: nat, k: nat)
    requires n % 2 == 0
    ensures n / Pow2(k + 1) == (n / 2) / Pow2(k)
    ensures n % Pow2(k + 1) == 2 * ((n / 2) % Pow2(k))
  {
    var p, h := Pow2(k), n / 2;
    var q, r := h / p, h % p;
    assert h == p * q + r && n == 2 * h;
    assert n == (2 * p) * q + 2 * r && 0 <= 2 * r < 2 * p;
    UniqueQuotient(n, 2 * p, q, 2 * r);
  }

  // ----- request to working copy

  datatype TaskInfo = TaskInfo(
    name: string,
    priority: Int32,
    policy: Int32,
    cpuAffinity: nat,
    period: Int32,
    releaseTime: Int32,
    runtime: Int32,
    deadline: Int32,
    nodeId: string,
    maxDmiss: Int32)

  function PolicyFromProto(v: Int32): SchedPolicy
  {
    if v == 1 then Fifo else if v == 2 then RoundRobin else Normal
  }

  function AffinityFromProto(v: nat): CpuAffinity
  {
    if v == 0 || v == U64_MAX then Any else Pinned(v)
  }

  function NonNegative(v: Int32): nat
  {
    if v < 0 then 0 else v as nat
  }

  function TaskFromProto(t: TaskInfo, workloadId: string): Task
  {
    Task(t.name, workloadId, t.nodeId, PolicyFromProto(t.policy), t.priority,
         AffinityFromProto(t.cpuAffinity), 0,
         NonNegative(t.period), NonNegative(t.runtime), NonNegative(t.deadline),
         NonNegative(t.releaseTime), t.maxDmiss, "", None)
  }

  // ----- working copy to stored schedule to downloaded task

  datatype SchedTask = SchedTask(
    name: string,
    assignedNode: string,
    assignedCpu: nat,
    policy: SchedPolicy,
    priority: Int32,
    periodNs: nat,
    runtimeNs: nat,
    deadlineNs: nat,
    releaseTimeUs: Int32,
    maxDmiss: Int32)

  /** Unsigned 64-bit multiplication that sticks at the maximum. */
  function SaturatingMul(a: nat, b: nat): nat
  {
    if a * b > U64_MAX then U64_MAX else a * b
  }

  /** Truncating conversion to a signed 32-bit integer. */
  function ToInt32(n: nat): Int32
  {
    var m := n % 0x1_0000_0000;
    if m > I32_MAX then (m - 0x1_0000_0000) as Int32 else m as Int32
  }

  function ToSchedTask(t: Task): SchedTask
  {
    SchedTask(t.name, t.assignedNode, if t.assignedCpu.Some? then t.assignedCpu.value else 0,
              t.policy, t.priority,
              SaturatingMul(t.periodUs, 1000), SaturatingMul(t.runtimeUs, 1000),
              SaturatingMul(t.deadlineUs, 1000), ToInt32(t.releaseTimeUs), t.maxDmiss)
  }

  datatype ScheduledTask = ScheduledTask(
    name: string,
    schedPriority: Int32,
    schedPolicy: Int32,
    periodUs: Int32,
    releaseTimeUs: Int32,
    runtimeUs: Int32,
    deadlineUs: Int32,
    cpuAffinity: nat,
    maxDmiss: Int32,
    assignedNode: string)

  function PolicyToLinux(p: SchedPolicy): Int32
  {
    match p
    case Normal => 0
    case Fifo => 1
    case RoundRobin => 2
  }

  function ToProtoTask(t: SchedTask): ScheduledTask
  {
    ScheduledTask(t.name, t.priority, PolicyToLinux(t.policy),
                  ToInt32(t.periodNs / 1000), t.releaseTimeUs,
                  ToInt32(t.runtimeNs / 1000), ToInt32(t.deadlineNs / 1000),
                  Pow2(t.assignedCpu % 64), t.maxDmiss, t.assignedNode)
  }

  /** The downloaded task is the requested one: only negative times become zero and unknown policies
      become normal. The mask has the one bit that the CPU number gives modulo 64. */
  predicate Delivers(out: ScheduledTask, p: TaskInfo, node: string, cpu: nat)
  {
    && out.name == p.name && out.assignedNode == node
    && out.schedPriority == p.priority && out.maxDmiss == p.maxDmiss
    && out.schedPolicy == (if p.policy == 1 || p.policy == 2 then p.policy else 0)
    && out.periodUs == (if p.period < 0 then 0 else p.period)
    && out.runtimeUs == (if p.runtime < 0 then 0 else p.runtime)
    && out.deadlineUs == (if p.deadline < 0 then 0 else p.deadline)
    && out.releaseTimeUs == (if p.releaseTime < 0 then 0 else p.releaseTime)
    && out.cpuAffinity == Pow2(cpu % 64)
  }

  /** What a node downloads is what was requested: every timing field survives the trip through
      nanoseconds. */
  lemma RequestSurvivesToNode(p: TaskInfo, workloadId: string, node: string, cpu: nat)
    ensures
      var placed := TaskFromProto(p, workloadId).(assignedNode := node, assignedCpu := Some(cpu));
      Delivers(ToProtoTask(ToSchedTask(placed)), p, node, cpu)
  {
    MicrosecondsSurvive(p.period);
    MicrosecondsSurvive(p.runtime);
    MicrosecondsSurvive(p.deadline);
    ReleaseTimeSurvives(p.releaseTime);
  }

  /** The downloaded mask names the assigned CPU if and only if that CPU is below 64; otherwise it names
      another one. */
  lemma MaskNamesCpuExactlyBelow64(out: ScheduledTask, p: TaskInfo, node: string, cpu: nat)
    requires Delivers(out, p, node, cpu)
    ensures TrailingZeros(out.cpuAffinity) == cpu % 64
    ensures TrailingZeros(out.cpuAffinity) == cpu <==> cpu < 64
  {
    LowestBitOfPow2(cpu % 64);
  }

  lemma ReleaseTimeSurvives(v: Int32)
    ensures ToInt32(NonNegative(v)) == (if v < 0 then 0 else v)
  {
  }

  lemma MicrosecondsSurvive(v: Int32)
    ensures ToInt32(SaturatingMul(NonNegative(v), 1000) / 1000) == (if v < 0 then 0 else v)
  {
  }

  lemma {:induction false} LowestBitOfPow2(k: nat)
    ensures TrailingZeros(Pow2(k)) == k
  {
    if k > 0 {
      LowestBitOfPow2(k - 1);
    }
  }
}
