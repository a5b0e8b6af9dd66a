/** The apply command as a whole: gather, check, apply to control planes and then to
    the pool of workers, bootstrap. */
module ApplyRun {
  import opened Common
  import opened Picking
  import opened NodePool
  import opened Apply
  import NodeOrder
  import MaxParallel
  import Pool

  /** What node.Apply answers, and whether the node would stabilise afterwards. */
  datatype Answer = Answer(outcome: Outcome, stabilizes: bool)

  datatype Outcome = Applied | NothingToApply | WouldChange | Refused

  datatype NodeResult = NoError | ChangesDetected | NotApplied | NotStable

  type Answers = Node -> Answer

  /** What applyNode must answer. */
  function ResultOf(a: Answer, dryRun: bool, skipPostApplyChecks: bool): NodeResult {
    if a.outcome.WouldChange? then ChangesDetected
    else if a.outcome.Refused? then NotApplied
    else if a.outcome.NothingToApply? || dryRun || skipPostApplyChecks then NoError
    else if !a.stabilizes then NotStable
    else NoError
  }

  method ApplyNode(a: Answer, dryRun: bool, skipPostApplyChecks: bool) returns (r: NodeResult)
    ensures r == ResultOf(a, dryRun, skipPostApplyChecks)
    ensures r.ChangesDetected? <==> a.outcome.WouldChange?
    ensures r.NotApplied? <==> a.outcome.Refused?
    ensures r.NotStable? <==> a.outcome.Applied? && !dryRun && !skipPostApplyChecks && !a.stabilizes
  {
    var applied := false;
    match a.outcome {
      case WouldChange => return ChangesDetected;
      case Refused => return NotApplied;
      case Applied => applied := true;
      case NothingToApply =>
    }
    if !applied || dryRun || skipPostApplyChecks { return NoError; }
    if !a.stabilizes { return NotStable; }
    return NoError;
  }

  datatype RunResult = Nothing | DryRunChangesDetected | Errors(list: seq<NodeResult>)

  // ---------------------------------------------------------------- the dry run

  ghost predicate FirstError(results: seq<NodeResult>, k: int) {
    0 <= k < |results| && IsError(results[k]) && forall j :: 0 <= j < k ==> !IsError(results[j])
  }

  predicate IsError(r: NodeResult) { r.NotApplied? || r.NotStable? }

  function Results(nodes: seq<Node>, answers: Answers, dryRun: bool, skip: bool): (r: seq<NodeResult>)
    ensures |r| == |nodes| && forall k :: 0 <= k < |r| ==> r[k] == ResultOf(answers(nodes[k]), dryRun, skip)
  {
    seq(|nodes|, k requires 0 <= k < |nodes| => ResultOf(answers(nodes[k]), dryRun, skip))
  }

  ghost predicate DryRunResult(results: seq<NodeResult>, r: RunResult) {
    match r
    case Errors(list) => exists k :: FirstError(results, k) && list == [results[k]]
    case DryRunChangesDetected => ChangesDetected in results && forall x :: x in results ==> !IsError(x)
    case Nothing => forall x :: x in results ==> x == NoError
  }

  /** Changes are reported exactly when some node would change and none refuses. */
  ghost predicate DryRunMeans(nodes: seq<Node>, answers: Answers, r: RunResult) {
    && (r.Errors? <==> exists x :: x in nodes && answers(x).outcome.Refused?)
    && (r == DryRunChangesDetected <==>
        (exists x :: x in nodes && answers(x).outcome.WouldChange?) &&
        forall x :: x in nodes ==> !answers(x).outcome.Refused?)
    && (r.Errors? ==> r.list == [NotApplied])
  }

  lemma DryRunInFull(nodes: seq<Node>, answers: Answers, skip: bool, r: RunResult)
    requires DryRunResult(Results(nodes, answers, true, skip), r)
    ensures DryRunMeans(nodes, answers, r)
  {
    var results := Results(nodes, answers, true, skip);
    assert forall k :: 0 <= k < |nodes| ==> nodes[k] in nodes && results[k] in results;
    forall x | x in nodes ensures ResultOf(answers(x), true, skip) in results {
      var k :| 0 <= k < |nodes| && nodes[k] == x;
      assert results[k] in results;
    }
    if r == DryRunChangesDetected {
      var k :| 0 <= k < |results| && results[k] == ChangesDetected;
      assert answers(nodes[k]).outcome.WouldChange?;
    }
    if r.Errors? {
      var k :| FirstError(results, k) && r.list == [results[k]];
      assert answers(nodes[k]).outcome.Refused?;
    }
  }

  /** applyDryRun: goes on past detected changes, stops at the first other error. */
  method ApplyDryRun(nodes: seq<Node>, answers: Answers, opts: Options) returns (r: RunResult)
    ensures DryRunResult(Results(nodes, answers, opts.dryRun, opts.skipPostApplyChecks), r)
    ensures opts.dryRun ==> DryRunMeans(nodes, answers, r)
  {
    ghost var results := Results(nodes, answers, opts.dryRun, opts.skipPostApplyChecks);
    var changesDetected := false;
    for k := 0 to |nodes|
      invariant forall j :: 0 <= j < k ==> !IsError(results[j])
      invariant changesDetected <==> exists j :: 0 <= j < k && results[j] == ChangesDetected
    {
      var result := ApplyNode(answers(nodes[k]), opts.dryRun, opts.skipPostApplyChecks);
      if result.ChangesDetected? {
        changesDetected := true;
        continue;
      }
      if !result.NoError? {
        assert FirstError(results, k);
        r := Errors([result]);
        if opts.dryRun { DryRunInFull(nodes, answers, opts.skipPostApplyChecks, r); }
        return;
      }
    }
    r := if changesDetected then DryRunChangesDetected else Nothing;
    if opts.dryRun { DryRunInFull(nodes, answers, opts.skipPostApplyChecks, r); }
  }

  // ---------------------------------------------------------------- applying for real

  /** One complete execution of the pool over the workers, in any interleaving. */
  ghost predicate IsSchedule(schedule: seq<Pool.State>, results: seq<NodeResult>, limit: int) {
    results != [] ==>
      && Pool.IsRun(|results|, Pool.Size(|results|, limit), schedule)
      && Pool.Finished(schedule[|schedule| - 1])
      && forall i :: i in schedule[|schedule| - 1].results && i < |results| ==>
          schedule[|schedule| - 1].results[i] == results[i].NoError?
  }

  /** Whatever the interleaving, the pool returns nil exactly when every node succeeds. */
  lemma PoolSucceedsIff(schedule: seq<Pool.State>, results: seq<NodeResult>, limit: int)
    requires results != [] && IsSchedule(schedule, results, limit)
    ensures var end := schedule[|schedule| - 1];
      && (end.errs == [] <==> forall i :: 0 <= i < |results| ==> results[i].NoError?)
      && (forall i :: i in end.errs ==> i < |results| && !results[i].NoError?)
      && (forall i :: i in end.calls ==> i < |results|)
      && (end.errs == [] ==> |end.calls| == |results|)
  {
    var end, len := schedule[|schedule| - 1], |results|;
    Pool.ResultIsExact(len, Pool.Size(len, limit), schedule);
    Pool.NeverTwice(len, Pool.Size(len, limit), schedule, |schedule| - 1);
    if end.errs == [] {
      assert forall i :: 0 <= i < len ==> i in end.results && end.results[i];
    } else {
      var i := end.errs[0];
      assert i in end.errs && i in end.results && i in end.calls;
      assert !results[i].NoError?;
    }
  }

  /** Every vector of results has a complete execution. */
  lemma SchedulesExist(results: seq<NodeResult>, limit: int) returns (schedule: seq<Pool.State>)
    ensures IsSchedule(schedule, results, limit)
  {
    schedule := [];
    if results != [] {
      var size := Pool.Size(|results|, limit);
      var outcomes := seq(|results|, k requires 0 <= k < |results| => results[k].NoError?);
      schedule := Pool.Completes(|results|, size, [Pool.Init(size)], outcomes);
    }
  }

  ghost predicate FirstFailure(results: seq<NodeResult>, k: int) {
    0 <= k < |results| && !results[k].NoError? && forall j :: 0 <= j < k ==> results[j].NoError?
  }

  /** Every node has nothing to apply, or is applied to and then stabilises if that is
      waited for. */
  ghost predicate AllSucceed(nodes: seq<Node>, answers: Answers, skip: bool) {
    forall x :: x in nodes ==>
      match answers(x).outcome
      case NothingToApply => true
      case Applied => skip || answers(x).stabilizes
      case _ => false
  }

  /** The first control plane that fails is the last node touched, and its error the
      result. */
  ghost predicate StoppedAt(nodes: seq<Node>, answers: Answers, skip: bool, k: int, calls: seq<Node>, r: RunResult) {
    var results := Results(ControlPlanes(nodes), answers, false, skip);
    FirstFailure(results, k) && calls == ControlPlanes(nodes)[..k + 1] && r == Errors([results[k]])
  }

  function Fails(): NodeResult -> bool { (r: NodeResult) => !r.NoError? }

  /** These nodes of the list, each at most once, have been applied to, and errors are
      theirs, none dropped; without errors all nodes have been. */
  ghost predicate AppliedTo(nodes: seq<Node>, answers: Answers, skip: bool, calls: seq<Node>, errors: seq<NodeResult>) {
    && multiset(calls) <= multiset(nodes)
    && multiset(errors) == multiset(Filter(Results(calls, answers, false, skip), Fails()))
    && (errors == [] ==> multiset(calls) == multiset(nodes))
  }

  /** All control planes came first and succeeded; then the workers. */
  ghost predicate WentOn(nodes: seq<Node>, answers: Answers, skip: bool, calls: seq<Node>, r: RunResult) {
    && AllSucceed(ControlPlanes(nodes), answers, skip)
    && ControlPlanes(nodes) <= calls
    && AppliedTo(Workers(nodes), answers, skip, calls[|ControlPlanes(nodes)|..], if r.Errors? then r.list else [])
  }

  ghost predicate InOrder(nodes: seq<Node>, answers: Answers, skip: bool, calls: seq<Node>, r: RunResult) {
    WentOn(nodes, answers, skip, calls, r) || exists k :: StoppedAt(nodes, answers, skip, k, calls, r)
  }

  /** The control planes: one at a time, up to the first that fails. */
  method ApplyInTurn(nodes: seq<Node>, answers: Answers, skip: bool)
    returns (failed: Option<NodeResult>, calls: seq<Node>)
    ensures failed.None? ==> calls == nodes && AllSucceed(nodes, answers, skip)
    ensures failed.Some? ==>
      exists k :: FailedAt(nodes, answers, skip, k, calls, failed.value)
  {
    ghost var results := Results(nodes, answers, false, skip);
    calls := [];
    for k := 0 to |nodes|
      invariant calls == nodes[..k] && forall j :: 0 <= j < k ==> results[j].NoError?
    {
      calls := calls + [nodes[k]];
      var result := ApplyNode(answers(nodes[k]), false, skip);
      if !result.NoError? {
        assert FailedAt(nodes, answers, skip, k, calls, result);
        return Some(result), calls;
      }
    }
    return None, calls;
  }

  ghost predicate FailedAt(nodes: seq<Node>, answers: Answers, skip: bool, k: int, calls: seq<Node>,
                           result: NodeResult)
  {
    var results := Results(nodes, answers, false, skip);
    FirstFailure(results, k) && calls == nodes[..k + 1] && result == results[k]
  }

  /** The workers: through the pool, in any interleaving. */
  method ApplyInPool(workers: seq<Node>, answers: Answers, skip: bool, limit: int, schedule: seq<Pool.State>)
    returns (errors: seq<NodeResult>, calls: seq<Node>)
    requires workers != [] && IsSchedule(schedule, Results(workers, answers, false, skip), limit)
    ensures errors == [] <==> AllSucceed(workers, answers, skip)
    ensures AppliedTo(workers, answers, skip, calls, errors)
  {
    var results := Results(workers, answers, false, skip);
    PoolSucceedsIff(schedule, results, limit);
    SuccessByIndex(workers, answers, skip);
    var end := schedule[|schedule| - 1];
    PoolAppliesTo(workers, answers, skip, limit, schedule);
    calls := Pick(workers, end.calls);
    errors := Pick(results, end.errs);
  }

  lemma PoolAppliesTo(workers: seq<Node>, answers: Answers, skip: bool, limit: int, schedule: seq<Pool.State>)
    requires workers != [] && IsSchedule(schedule, Results(workers, answers, false, skip), limit)
    ensures var results, end := Results(workers, answers, false, skip), schedule[|schedule| - 1];
      && (forall i :: i in end.calls ==> i < |workers|) && (forall i :: i in end.errs ==> i < |workers|)
      && AppliedTo(workers, answers, skip, Pick(workers, end.calls), Pick(results, end.errs))
  {
    var results, end := Results(workers, answers, false, skip), schedule[|schedule| - 1];
    PoolSucceedsIff(schedule, results, limit);
    Pool.NeverTwice(|results|, Pool.Size(|results|, limit), schedule, |schedule| - 1);
    PickDistinct(workers, end.calls);
    ErrorsOfCalls(workers, answers, skip, limit, schedule);
  }

  lemma ErrorsOfCalls(workers: seq<Node>, answers: Answers, skip: bool, limit: int, schedule: seq<Pool.State>)
    requires workers != [] && IsSchedule(schedule, Results(workers, answers, false, skip), limit)
    ensures var results, end := Results(workers, answers, false, skip), schedule[|schedule| - 1];
      && (forall i :: i in end.calls ==> i < |workers|) && (forall i :: i in end.errs ==> i < |workers|)
      && multiset(Pick(results, end.errs)) ==
         multiset(Filter(Results(Pick(workers, end.calls), answers, false, skip), Fails()))
  {
    var results, end := Results(workers, answers, false, skip), schedule[|schedule| - 1];
    PoolSucceedsIff(schedule, results, limit);
    assert Results(Pick(workers, end.calls), answers, false, skip) == Pick(results, end.calls);
    PickFilter(results, end.calls, Fails());
    PoolErrors(schedule, results, limit);
    PickRearranged(results, end.errs, Filter<nat>(end.calls, Selected(results, Fails())));
  }

  /** The errors sent are those of the calls that fail. */
  lemma PoolErrors(schedule: seq<Pool.State>, results: seq<NodeResult>, limit: int)
    requires results != [] && IsSchedule(schedule, results, limit)
    ensures var end := schedule[|schedule| - 1];
      multiset(end.errs) == multiset(Filter<nat>(end.calls, Selected(results, Fails())))
  {
    var end := schedule[|schedule| - 1];
    var failing := Filter<nat>(end.calls, Selected(results, Fails()));
    Pool.ResultIsExact(|results|, Pool.Size(|results|, limit), schedule);
    Pool.NeverTwice(|results|, Pool.Size(|results|, limit), schedule, |schedule| - 1);
    FilterDistinct<nat>(end.calls, Selected(results, Fails()));
    FilterMembers<nat>(end.calls, Selected(results, Fails()));
    forall i ensures i in end.errs <==> i in failing {
      assert i in end.calls ==> i in end.results && i < |results| && end.results[i] == results[i].NoError?;
    }
    DistinctRearranged(end.errs, failing);
  }

  lemma SuccessByIndex(nodes: seq<Node>, answers: Answers, skip: bool)
    ensures AllSucceed(nodes, answers, skip) <==>
      forall i :: 0 <= i < |nodes| ==> Results(nodes, answers, false, skip)[i].NoError?
  {
    var results := Results(nodes, answers, false, skip);
    assert forall i :: 0 <= i < |nodes| ==> nodes[i] in nodes;
    if forall i :: 0 <= i < |nodes| ==> results[i].NoError? {
      forall x | x in nodes ensures ResultOf(answers(x), false, skip).NoError? {
        var i :| 0 <= i < |nodes| && nodes[i] == x;
        assert results[i].NoError?;
      }
    }
  }

  /** applyConfigs without a dry run; calls lists the nodes applied to, in order. */
  method ApplyForReal(nodes: seq<Node>, answers: Answers, skip: bool, limit: MaxParallel.MaxParallel,
                      schedule: seq<Pool.State>) returns (r: RunResult, calls: seq<Node>)
    requires IsSchedule(schedule, Results(Workers(nodes), answers, false, skip), MaxParallel.Limit(limit, |nodes|))
    ensures r == Nothing <==> AllSucceed(nodes, answers, skip)
    ensures r == Nothing || r.Errors?
    ensures InOrder(nodes, answers, skip, calls, r)
  {
    var controlPlane, workers := PartitionByRole(nodes);
    SucceedByParts(nodes, answers, skip);
    var failed, turn := ApplyInTurn(controlPlane, answers, skip);
    if failed.Some? {
      ghost var k :| FailedAt(controlPlane, answers, skip, k, turn, failed.value);
      assert StoppedAt(nodes, answers, skip, k, turn, Errors([failed.value]));
      SuccessByIndex(controlPlane, answers, skip);
      return Errors([failed.value]), turn;
    }
    if |workers| > 0 {
      var errors, pooled := ApplyInPool(workers, answers, skip, MaxParallel.Limit(limit, |nodes|), schedule);
      GoesOn(nodes, answers, skip, pooled, errors);
      return if errors == [] then Nothing else Errors(errors), turn + pooled;
    }
    GoesOn(nodes, answers, skip, [], []);
    assert turn + [] == turn;
    return Nothing, turn;
  }

  lemma GoesOn(nodes: seq<Node>, answers: Answers, skip: bool, pooled: seq<Node>, errors: seq<NodeResult>)
    requires AllSucceed(ControlPlanes(nodes), answers, skip)
    requires AppliedTo(Workers(nodes), answers, skip, pooled, errors)
    ensures var r := if errors == [] then Nothing else Errors(errors);
      WentOn(nodes, answers, skip, ControlPlanes(nodes) + pooled, r)
  {
    assert (ControlPlanes(nodes) + pooled)[|ControlPlanes(nodes)|..] == pooled;
  }

  /** Each node is applied to at most once; and if nothing fails, every node is. */
  lemma EachAtMostOnce(nodes: seq<Node>, answers: Answers, skip: bool, calls: seq<Node>, r: RunResult)
    requires InOrder(nodes, answers, skip, calls, r)
    ensures multiset(calls) <= multiset(nodes)
    ensures r == Nothing ==> multiset(calls) == multiset(nodes)
  {
    var first, last := ControlPlanes(nodes), Workers(nodes);
    PartsAreTheNodes(nodes);
    if WentOn(nodes, answers, skip, calls, r) {
      FrontAndRest(nodes, first, last, calls);
    } else {
      var k :| StoppedAt(nodes, answers, skip, k, calls, r);
      Front(nodes, first, last, k + 1);
    }
  }

  lemma FrontAndRest(all: seq<Node>, first: seq<Node>, last: seq<Node>, calls: seq<Node>)
    requires multiset(first) + multiset(last) == multiset(all)
    requires first <= calls && multiset(calls[|first|..]) <= multiset(last)
    ensures multiset(calls) <= multiset(all)
    ensures multiset(calls[|first|..]) == multiset(last) ==> multiset(calls) == multiset(all)
  {
    assert calls == first + calls[|first|..];
  }

  lemma Front(all: seq<Node>, first: seq<Node>, last: seq<Node>, k: nat)
    requires multiset(first) + multiset(last) == multiset(all) && k <= |first|
    ensures multiset(first[..k]) <= multiset(all)
  {
    assert first == first[..k] + first[k..];
  }

  lemma SucceedByParts(nodes: seq<Node>, answers: Answers, skip: bool)
    ensures AllSucceed(nodes, answers, skip) <==>
      AllSucceed(ControlPlanes(nodes), answers, skip) && AllSucceed(Workers(nodes), answers, skip)
  {
    FilterMembers(nodes, HasRole(NodeOrder.ControlPlane));
    FilterMembers(nodes, HasRole(NodeOrder.Worker));
    assert forall x :: x in nodes ==> x in ControlPlanes(nodes) || x in Workers(nodes);
    assert forall x :: x in ControlPlanes(nodes) || x in Workers(nodes) ==> x in nodes;
  }

  // ---------------------------------------------------------------- from configuration to bootstrap

  function Slots(nodes: seq<Node>): seq<Slot> {
    seq(|nodes|, k requires 0 <= k < |nodes| => At(nodes[k]))
  }

  lemma {:induction false} SlotsFilter(nodes: seq<Node>, allowNotReady: bool)
    ensures Filter(Slots(nodes), Keeps(allowNotReady)) == Slots(Filter(nodes, IsHealthy(allowNotReady)))
  {
    if nodes != [] {
      SlotsFilter(nodes[1..], allowNotReady);
      assert Slots(nodes)[1..] == Slots(nodes[1..]);
      assert Slots(nodes)[0] == At(nodes[0]);
    }
  }

  function Infos(slots: seq<Slot>): seq<Node>
    requires forall s :: s in slots ==> s.At?
  {
    seq(|slots|, k requires 0 <= k < |slots| => assert slots[k] in slots; slots[k].info)
  }

  predicate AllMaintained(nodes: seq<Node>) { forall k :: 0 <= k < |nodes| ==> nodes[k].stage == Maintenance }

  lemma SlotsAndBack(nodes: seq<Node>)
    ensures forall s :: s in Slots(nodes) ==> s.At?
    ensures Infos(Slots(nodes)) == nodes
    ensures AllMaintained(nodes) <==> AllInMaintenance(Slots(nodes))
  {
    assert forall k :: 0 <= k < |nodes| ==> Slots(nodes)[k] == At(nodes[k]);
  }

  /** The nodes the pre-flight checks leave, if they pass. */
  function Passed(nodes: seq<Node>, opts: Options): (left: Option<seq<Node>>) {
    var healthy := Filter(nodes, IsHealthy(opts.allowNotReady));
    if healthy != [] && (opts.skipProblematicNodes || |healthy| == |nodes|) then Some(healthy) else None
  }

  /** The pre-flight checks seen from outside. */
  method Check(nodes: seq<Node>, opts: Options) returns (left: Option<seq<Node>>)
    modifies opts
    ensures left == Passed(nodes, opts)
    ensures left.Some? ==> forall x :: x in left.value <==>
      x in nodes && !x.broken && (opts.allowNotReady || x.ready) && x.stage in [Running, Maintenance, Booting]
    ensures opts.skipPostApplyChecks == (old(opts.skipPostApplyChecks) || (left.Some? && AllMaintained(left.value)))
  {
    var slots := new Slot[|nodes|](k requires 0 <= k < |nodes| => At(nodes[k]));
    assert slots[..] == Slots(nodes);
    ghost var healthy := Filter(nodes, IsHealthy(opts.allowNotReady));
    SlotsFilter(nodes, opts.allowNotReady);
    SlotsAndBack(healthy);
    FilterMembers(nodes, IsHealthy(opts.allowNotReady));
    assert healthy == [] <==> Slots(healthy) == [];
    var n := RunPreflightChecks(slots, opts);
    return if n.None? then None else Some(Infos(slots[..n.value]));
  }

  datatype Result = Done | ChecksFailed | NotAllApplied(why: RunResult) | NotBootstrapped

  /** What Execute owes for the nodes that passed the checks. */
  ghost predicate Executed(rest: seq<Node>, answers: Answers, dryRun: bool, skip: bool, autoBootstrap: bool,
                           attempts: seq<Attempt>, r: Result, calls: seq<Node>, requests: seq<Request>)
  {
    if dryRun then
      && calls == [] && requests == []
      && DryRunResult(Results(rest, answers, true, skip), Why(r)) && DryRunMeans(rest, answers, Why(r))
      && (r.Done? || r.NotAllApplied?)
    else
      && InOrder(rest, answers, skip, calls, Why(r)) && !r.ChecksFailed?
      && (r.NotAllApplied? <==> !AllSucceed(rest, answers, skip))
      && multiset(calls) <= multiset(rest) && (!r.NotAllApplied? ==> multiset(calls) == multiset(rest))
      && requests == (
          if r.NotAllApplied? || !autoBootstrap || BootstrapTarget(rest).None? then []
          else Requests(BootstrapTarget(rest).value, attempts))
      && (r.NotBootstrapped? <==>
          !r.NotAllApplied? && autoBootstrap && BootstrapTarget(rest).Some? && !exists k :: FirstDecision(attempts, k))
  }

  function Why(r: Result): RunResult { if r.NotAllApplied? then r.why else Nothing }

  function Found(config: seq<NodeOrder.Node>, matches: Text -> bool, gather: Findings): seq<Node> {
    Gathered(Filter(NodeOrder.StableSort(config), Named(matches)), gather)
  }

  /** Execute, given the loaded configuration. Only a run that applied to every node
      left by the checks asks for a bootstrap, and only the first control plane. */
  method Execute(config: seq<NodeOrder.Node>, matches: Text -> bool, gather: Findings, answers: Answers, opts: Options,
                 limit: MaxParallel.MaxParallel, schedule: seq<Pool.State>, autoBootstrap: bool, attempts: seq<Attempt>)
    returns (r: Result, calls: seq<Node>, requests: seq<Request>)
    requires var rest := Remaining(config, matches, gather, opts.allowNotReady);
      var skip := opts.skipPostApplyChecks || AllMaintained(rest);
      IsSchedule(schedule, Results(Workers(rest), answers, false, skip), MaxParallel.Limit(limit, |rest|))
    modifies opts
    ensures var all, rest := Found(config, matches, gather), Remaining(config, matches, gather, opts.allowNotReady);
      if all == [] then r == Done && calls == [] && requests == []
      else if Passed(all, opts).None? then r == ChecksFailed && calls == [] && requests == []
      else Executed(rest, answers, opts.dryRun, opts.skipPostApplyChecks, autoBootstrap, attempts, r, calls, requests)
    ensures var all, rest := Found(config, matches, gather), Remaining(config, matches, gather, opts.allowNotReady);
      opts.skipPostApplyChecks == (old(opts.skipPostApplyChecks) ||
        (Passed(all, opts).Some? && forall k :: 0 <= k < |rest| ==> rest[k].stage == Maintenance))
  {
    calls, requests := [], [];
    var nodes := FilteredNodes(NodeOrder.StableSort(config), matches, gather);
    if |nodes| == 0 { return Done, calls, requests; }
    var left := Check(nodes, opts);
    if left.None? { return ChecksFailed, calls, requests; }
    r, calls, requests := ApplyAndBootstrap(left.value, answers, opts, limit, schedule, autoBootstrap, attempts);
  }

  /** The part of Execute after the checks. */
  method ApplyAndBootstrap(rest: seq<Node>, answers: Answers, opts: Options, limit: MaxParallel.MaxParallel,
                           schedule: seq<Pool.State>, autoBootstrap: bool, attempts: seq<Attempt>)
    returns (r: Result, calls: seq<Node>, requests: seq<Request>)
    requires var skip := opts.skipPostApplyChecks;
      IsSchedule(schedule, Results(Workers(rest), answers, false, skip), MaxParallel.Limit(limit, |rest|))
    ensures Executed(rest, answers, opts.dryRun, opts.skipPostApplyChecks, autoBootstrap, attempts, r, calls, requests)
  {
    calls, requests := [], [];
    var applied: RunResult;
    if opts.dryRun {
      applied := ApplyDryRun(rest, answers, opts);
    } else {
      applied, calls := ApplyForReal(rest, answers, opts.skipPostApplyChecks, limit, schedule);
      EachAtMostOnce(rest, answers, opts.skipPostApplyChecks, calls, applied);
    }
    if applied != Nothing { return NotAllApplied(applied), calls, requests; }
    if autoBootstrap && !opts.dryRun {
      var outcome;
      outcome, requests := Bootstrap(rest, attempts);
      if outcome.TimedOut? { return NotBootstrapped, calls, requests; }
    }
    return Done, calls, requests;
  }
}
