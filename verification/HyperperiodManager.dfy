/** The per-workload hyperperiod table of the Rust orchestrator. */
module HyperperiodManager {
  import opened Wrappers
  import opened HyperperiodMath
  import opened Tasks

  const DEFAULT_LIMIT_US: nat := 3_600_000_000

  datatype HyperperiodInfo = HyperperiodInfo(
    workloadId: string,
    hyperperiodUs: nat,
    uniquePeriods: seq<nat>,
    taskCount: nat)

  predicate Contributes(t: Task, workloadId: string)
  {
    t.workloadId == workloadId && t.periodUs > 0
  }

  /** The positions of the tasks that contribute a period. */
  ghost function Contributors(tasks: seq<Task>, workloadId: string): set<nat>
  {
    set i: nat | i < |tasks| && Contributes(tasks[i], workloadId)
  }

  /** The periods of the contributing tasks, in task order and with repetitions. */
  function Periods(tasks: seq<Task>, workloadId: string): (ps: seq<nat>)
    ensures Positive(ps)
    ensures forall p :: p in ps <==>
      exists i :: 0 <= i < |tasks| && Contributes(tasks[i], workloadId) && tasks[i].periodUs == p
  {
    if tasks == [] then []
    else
      var init, t := tasks[..|tasks| - 1], tasks[|tasks| - 1];
      assert forall i :: 0 <= i < |init| ==> init[i] == tasks[i];
      Periods(init, workloadId) + if Contributes(t, workloadId) then [t.periodUs] else []
  }

  /** One period per contributing task. */
  lemma {:induction false} OnePeriodPerContributor(tasks: seq<Task>, workloadId: string)
    ensures |Periods(tasks, workloadId)| == |Contributors(tasks, workloadId)|
  {
    if tasks != [] {
      var init := tasks[..|tasks| - 1];
      OnePeriodPerContributor(init, workloadId);
      assert Contributors(tasks, workloadId) == Contributors(init, workloadId) +
        if Contributes(tasks[|init|], workloadId) then {|init|} else {};
    }
  }

  ghost predicate StrictlyAscending(s: seq<nat>)
  {
    forall i, j :: 0 <= i < j < |s| ==> s[i] < s[j]
  }

  /** e names the LCM of the smallest periods that still fit together, and the next larger period. */
  ghost predicate NamesOverflow(e: HyperperiodError, ps: seq<nat>)
  {
    exists sorted: seq<nat>, k: nat :: OverflowsAt(e, sorted, k) && StrictlyAscending(sorted) &&
      forall p :: p in sorted <==> p in ps
  }

  ghost predicate OverflowsAt(e: HyperperiodError, ps: seq<nat>, k: nat)
  {
    k < |ps| && ListLcm(ps[..k]) < U64 <= ListLcm(ps[..k + 1]) && e == Overflow(ListLcm(ps[..k]), ps[k])
  }

  /** Sort and deduplicate. */
  method SortedUnique(v: seq<nat>) returns (s: seq<nat>)
    ensures StrictlyAscending(s)
    ensures forall p :: p in s <==> p in v
  {
    s := [];
    for i := 0 to |v|
      invariant StrictlyAscending(s)
      invariant forall p :: p in s <==> p in v[..i]
    {
      var k := 0;
      while k < |s| && s[k] < v[i]
        invariant 0 <= k <= |s|
        invariant forall j :: 0 <= j < k ==> s[j] < v[i]
      {
        k := k + 1;
      }
      assert v[..i + 1] == v[..i] + [v[i]];
      if k == |s| || s[k] != v[i] {
        ghost var old_s := s;
        s := s[..k] + [v[i]] + s[k..];
        assert forall p :: p in s <==> p in old_s || p == v[i] by {
          assert old_s == old_s[..k] + old_s[k..];
        }
      } else {
        assert v[i] in s;
      }
    }
    assert v[..|v|] == v;
  }

  /** Folding the sorted periods gives the LCM of all of them, or the overflow that they run into. */
  lemma FoldOfUniquePeriods(ps: seq<nat>, sorted: seq<nat>)
    requires ps != [] && forall i :: 0 <= i < |ps| ==> 0 < ps[i] < U64
    requires StrictlyAscending(sorted) && forall p :: p in sorted <==> p in ps
    ensures IsLcm(ListLcm(ps), ps)
    ensures ListLcm(ps) < U64 ==> LcmOfSlice(sorted) == Ok(ListLcm(ps))
    ensures ListLcm(ps) >= U64 ==>
      var r := LcmOfSlice(sorted); r.Err? && r.error.Overflow? && NamesOverflow(r.error, ps)
  {
    assert ps[0] in sorted;
    forall i | 0 <= i < |sorted| ensures 0 < sorted[i] < U64 { assert sorted[i] in ps; }
    OrderAndDuplicatesIrrelevant(ps, sorted);
    ListLcmIsLcm(ps);
    LcmOfSliceIsExact(sorted);
    if ListLcm(ps) >= U64 {
      var k :| 1 <= k < |sorted| && ListLcm(sorted[..k]) < U64 <= ListLcm(sorted[..k + 1]) &&
        LcmOfSlice(sorted) == Err(Overflow(ListLcm(sorted[..k]), sorted[k]));
      assert OverflowsAt(LcmOfSlice(sorted).error, sorted, k);
    }
  }

  class Manager {
    var table: map<string, HyperperiodInfo>
    const limitUs: nat

    constructor WithLimit(limit: nat)
      ensures table == map[] && limitUs == limit
    {
      table := map[];
      limitUs := limit;
    }

    /** Success exactly when some task contributes a period, the true LCM fits in 64 bits and
        it is within the limit; the stored value is then that LCM. Failures leave the table alone. */
    method CalculateHyperperiod(workloadId: string, tasks: seq<Task>)
      returns (r: Result<HyperperiodInfo, HyperperiodError>)
      requires forall i :: 0 <= i < |tasks| ==> tasks[i].periodUs < U64
      modifies this
      ensures var ps := Periods(tasks, workloadId);
        && (r.Ok? <==> ps != [] && ListLcm(ps) < U64 && ListLcm(ps) <= limitUs)
        && (r.Ok? ==>
              && IsLcm(r.value.hyperperiodUs, ps)
              && r.value.workloadId == workloadId
              && r.value.taskCount == |Contributors(tasks, workloadId)|
              && StrictlyAscending(r.value.uniquePeriods)
              && (forall p :: p in r.value.uniquePeriods <==> p in ps)
              && table == old(table)[workloadId := r.value])
        && (r.Err? ==> table == old(table))
        && (r == Err(NoValidPeriods) <==> ps == [])
        && (r.Err? && r.error.Overflow? ==> ListLcm(ps) >= U64)
        && (ps != [] && ListLcm(ps) >= U64 ==> r.Err? && NamesOverflow(r.error, ps))
        && (ps != [] && limitUs < ListLcm(ps) < U64 ==> r == Err(TooLarge(ListLcm(ps), limitUs)))
    {
      var matching: seq<nat> := [];
      for i := 0 to |tasks|
        invariant matching == Periods(tasks[..i], workloadId)
      {
        assert tasks[..i + 1][..i] == tasks[..i];
        if Contributes(tasks[i], workloadId) {
          matching := matching + [tasks[i].periodUs];
        }
      }
      assert tasks[..|tasks|] == tasks;
      if matching == [] {
        return Err(NoValidPeriods);
      }
      var unique := SortedUnique(matching);
      forall i | 0 <= i < |matching| ensures 0 < matching[i] < U64 { assert matching[i] in matching; }
      FoldOfUniquePeriods(matching, unique);
      match LcmOfSlice(unique)
      case Err(e) =>
        r := Err(e);
      case Ok(h) =>
        if h > limitUs {
          return Err(TooLarge(h, limitUs));
        }
        OnePeriodPerContributor(tasks, workloadId);
        var info := HyperperiodInfo(workloadId, h, unique, |matching|);
        table := table[workloadId := info];
        r := Ok(info);
    }

    method ClearWorkload(workloadId: string)
      modifies this
      ensures table == old(table) - {workloadId}
    {
      table := table - {workloadId};
    }
  }
}
