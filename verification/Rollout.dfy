/** A whole upgrade run over two layers: the pool's goroutines, and the protocol of
    the node each of them is upgrading. Control-plane nodes come first, in order. */
module Rollout {
  import opened Common
  import opened NodeUpgrade
  import Pool
  import MaxParallel

  /** modern says, for each node of the worklist, which flow it takes; the first cps
      of them are control-plane nodes. total counts all nodes, planned or not. */
  datatype Config = Config(opts: Options, modern: seq<bool>, cps: nat, limit: MaxParallel.MaxParallel, total: nat)

  ghost predicate ValidConfig(c: Config) { c.cps <= |c.modern| <= c.total }

  function Workers(c: Config): int { |c.modern| - c.cps }

  function PoolSize(c: Config): (size: nat)
    requires Workers(c) > 0
    ensures var limit := MaxParallel.Limit(c.limit, c.total);
      limit >= 1 ==> size == if limit <= Workers(c) then limit else Workers(c)
  {
    Pool.Size(Workers(c), MaxParallel.Limit(c.limit, c.total))
  }

  datatype Stage = ControlPlane(k: nat) | Pooled(pool: Pool.State)

  datatype State = State(nodes: seq<Node>, stage: Stage)

  datatype Event =
    | ControlCall(r: Reply)             // a remote call for control-plane node k, with its reply
    | ControlNext                       // node k done, on to the next
    | StartPool
    | PoolStep(w: nat, l: Pool.Label)
    | WorkerCall(w: nat, r: Reply)      // a remote call by goroutine w for the node it runs

  function Init(c: Config): State {
    State(seq(|c.modern|, _ => UNTOUCHED), ControlPlane(0))
  }

  predicate CanStep(c: Config, st: State, e: Event) {
    match (e, st.stage)
    case (ControlCall(_), ControlPlane(k)) => k < c.cps && k < |st.nodes| == |c.modern| && !st.nodes[k].phase.Finished?
    case (ControlNext, ControlPlane(k)) => k < c.cps && k < |st.nodes| && st.nodes[k].phase == Finished(true)
    case (StartPool, ControlPlane(k)) => k == c.cps && Workers(c) > 0
    case (PoolStep(w, l), Pooled(pool)) =>
      && Workers(c) > 0 && Pool.CanStep(Workers(c), pool, w, l)
      && (l.Return? ==> NodeOf(c, st, pool.pcs[w].i) && st.nodes[c.cps + pool.pcs[w].i].phase == Finished(l.ok))
    case (WorkerCall(w, _), Pooled(pool)) =>
      && w < |pool.pcs| && pool.pcs[w].Running?
      && NodeOf(c, st, pool.pcs[w].i) && !st.nodes[c.cps + pool.pcs[w].i].phase.Finished?
    case _ => false
  }

  predicate NodeOf(c: Config, st: State, i: nat) { c.cps + i < |st.nodes| == |c.modern| }

  function Advanced(c: Config, st: State, j: nat, r: Reply): State
    requires j < |st.nodes| == |c.modern|
  {
    st.(nodes := st.nodes[j := Next(c.opts, c.modern[j], st.nodes[j], r)])
  }

  function NextState(c: Config, st: State, e: Event): State
    requires CanStep(c, st, e)
  {
    match e
    case ControlCall(r) => Advanced(c, st, st.stage.k, r)
    case ControlNext => st.(stage := ControlPlane(st.stage.k + 1))
    case StartPool => st.(stage := Pooled(Pool.Init(PoolSize(c))))
    case PoolStep(w, l) => st.(stage := Pooled(Pool.Next(Workers(c), st.stage.pool, w, l)))
    case WorkerCall(w, r) => Advanced(c, st, c.cps + st.stage.pool.pcs[w].i, r)
  }

  ghost predicate Step(c: Config, st: State, st': State) {
    exists e :: CanStep(c, st, e) && st' == NextState(c, st, e)
  }

  ghost predicate IsRun(c: Config, run: seq<State>) {
    && run != [] && run[0] == Init(c)
    && forall k :: 0 <= k < |run| - 1 ==> Step(c, run[k], run[k + 1])
  }

  /** What Execute has returned, if it has. */
  function Returned(c: Config, st: State): Option<bool> {
    match st.stage
    case ControlPlane(k) =>
      if k < c.cps && k < |st.nodes| && st.nodes[k].phase == Finished(false) then Some(false)
      else if k == c.cps && Workers(c) == 0 then Some(true)
      else None
    case Pooled(pool) => if Pool.Finished(pool) then Some(pool.errs == []) else None
  }

  // ---------------------------------------------------------------- the invariant of both layers

  ghost predicate Inv(c: Config, st: State) {
    && |st.nodes| == |c.modern|
    && (forall j :: 0 <= j < |st.nodes| ==> NodeInv(c.opts, c.modern[j], st.nodes[j]))
    && match st.stage
       case ControlPlane(k) => ControlInv(c, st, k)
       case Pooled(pool) => PooledInv(c, st, pool)
  }

  /** Nodes before the current one are done, nodes after it are untouched. */
  ghost predicate ControlInv(c: Config, st: State, k: nat)
    requires |st.nodes| == |c.modern|
  {
    && k <= c.cps
    && (forall j :: 0 <= j < |st.nodes| && j < k ==> st.nodes[j].phase == Finished(true))
    && (forall j :: 0 <= j < |st.nodes| && (j > k || j >= c.cps) ==> st.nodes[j].phase == Pending)
  }

  /** The control plane is done; a worker node has been touched only by its call, and
      ends as the call ended. */
  ghost predicate PooledInv(c: Config, st: State, pool: Pool.State)
    requires |st.nodes| == |c.modern|
  {
    && Workers(c) > 0 && |pool.pcs| == PoolSize(c) && Pool.Inv(Workers(c), pool)
    && (forall j :: 0 <= j < c.cps ==> st.nodes[j].phase == Finished(true))
    && (forall j :: c.cps <= j < |st.nodes| ==> CallMatches(pool, j - c.cps, st.nodes[j].phase))
  }

  predicate CallMatches(pool: Pool.State, i: nat, phase: Phase) {
    && (i !in pool.calls ==> phase == Pending)
    && (i in pool.results ==> phase == Finished(pool.results[i]))
  }

  lemma StepInv(c: Config, st: State, e: Event)
    requires ValidConfig(c) && Inv(c, st) && CanStep(c, st, e)
    ensures Inv(c, NextState(c, st, e))
  {
    match e {
      case ControlCall(r) => AdvanceKeepsNodes(c, st, st.stage.k, r);
      case ControlNext =>
      case StartPool => Pool.InitInv(Workers(c), PoolSize(c));
      case PoolStep(w, l) => PoolStepInv(c, st, w, l);
      case WorkerCall(w, r) => WorkerCallInv(c, st, w, r);
    }
  }

  lemma PoolStepInv(c: Config, st: State, w: nat, l: Pool.Label)
    requires ValidConfig(c) && Inv(c, st) && CanStep(c, st, PoolStep(w, l))
    ensures Inv(c, NextState(c, st, PoolStep(w, l)))
  {
    var pool := st.stage.pool;
    var pool' := Pool.Next(Workers(c), pool, w, l);
    Pool.StepInv(Workers(c), pool, w, l);
    forall j | c.cps <= j < |st.nodes| ensures CallMatches(pool', j - c.cps, st.nodes[j].phase) {
      assert CallMatches(pool, j - c.cps, st.nodes[j].phase);
    }
  }

  lemma WorkerCallInv(c: Config, st: State, w: nat, r: Reply)
    requires ValidConfig(c) && Inv(c, st) && CanStep(c, st, WorkerCall(w, r))
    ensures Inv(c, NextState(c, st, WorkerCall(w, r)))
  {
    var pool := st.stage.pool;
    var at := c.cps + pool.pcs[w].i;
    AdvanceKeepsNodes(c, st, at, r);
    RunningIsCalled(Workers(c), pool, w);
    var nodes := Advanced(c, st, at, r).nodes;
    forall j | c.cps <= j < |nodes| ensures CallMatches(pool, j - c.cps, nodes[j].phase) {
      assert j == at || nodes[j] == st.nodes[j];
      assert CallMatches(pool, j - c.cps, st.nodes[j].phase);
    }
  }

  lemma AdvanceKeepsNodes(c: Config, st: State, at: nat, r: Reply)
    requires at < |st.nodes| == |c.modern| && !st.nodes[at].phase.Finished?
    requires forall j :: 0 <= j < |st.nodes| ==> NodeInv(c.opts, c.modern[j], st.nodes[j])
    ensures var nodes := Advanced(c, st, at, r).nodes;
      forall j :: 0 <= j < |nodes| ==> NodeInv(c.opts, c.modern[j], nodes[j])
  {
    NextKeepsNodeInv(c.opts, c.modern[at], st.nodes[at], r);
  }

  lemma RunningIsCalled(len: nat, pool: Pool.State, w: nat)
    requires Pool.Inv(len, pool) && w < |pool.pcs| && pool.pcs[w].Running?
    ensures pool.pcs[w].i in pool.calls && pool.pcs[w].i !in pool.results
  {
    assert Pool.PlaceInv(len, pool, w);
    assert Pool.Fate(pool, pool.pcs[w].i, pool.pcs[w]);
  }

  lemma {:induction false} RunInv(c: Config, run: seq<State>, k: nat)
    requires ValidConfig(c) && IsRun(c, run) && k < |run|
    ensures Inv(c, run[k])
  {
    if k > 0 {
      RunInv(c, run, k - 1);
      assert Step(c, run[k - 1], run[k]);
      var e :| CanStep(c, run[k - 1], e) && run[k] == NextState(c, run[k - 1], e);
      StepInv(c, run[k - 1], e);
    }
  }

  // ---------------------------------------------------------------- the disruption budget

  /** This run has cordoned the node and not uncordoned it, or rebooted it and not seen
      it stable since. */
  predicate Disrupted(s: Node) { s.marks.cordoned || s.marks.rebooting }

  ghost function DisruptedControls(c: Config, st: State): set<nat> {
    set j: nat | j < |st.nodes| && j < c.cps && Disrupted(st.nodes[j])
  }

  ghost function DisruptedWorkers(c: Config, st: State): set<nat> {
    set j: nat | j < |st.nodes| && c.cps <= j && Disrupted(st.nodes[j])
  }

  /** In every reachable state, failures included: at most one control-plane node is
      cordoned or rebooting, no worker is while one of them is, and the workers that
      are, abandoned ones included, never exceed the limit or the number of workers. */
  lemma DisruptionBudget(c: Config, run: seq<State>, k: nat)
    requires ValidConfig(c) && IsRun(c, run) && k < |run|
    ensures |DisruptedControls(c, run[k])| <= 1
    ensures DisruptedControls(c, run[k]) != {} ==> DisruptedWorkers(c, run[k]) == {}
    ensures |DisruptedWorkers(c, run[k])| <= Workers(c)
    ensures |DisruptedWorkers(c, run[k])| <= MaxParallel.Limit(c.limit, c.total)
    ensures forall j: nat :: j < |run[k].nodes| ==>
      (run[k].nodes[j].marks.cordoned || run[k].nodes[j].marks.rebooting <==>
       j in DisruptedControls(c, run[k]) + DisruptedWorkers(c, run[k]))
  {
    var st := run[k];
    RunInv(c, run, k);
    match st.stage {
      case ControlPlane(at) => ControlBudget(c, st);
      case Pooled(pool) => WorkerBudget(c, st);
    }
    MaxParallel.LimitBounds(c.limit, c.total);
  }

  /** In terms of the setting: of a count, never more than it; of a percentage, never
      more than the fewest nodes that reach it. */
  lemma BudgetOfTheSetting(c: Config, run: seq<State>, k: nat)
    requires ValidConfig(c) && IsRun(c, run) && k < |run|
    ensures !c.limit.percent && c.limit.value >= 1 ==> |DisruptedWorkers(c, run[k])| <= c.limit.value
    ensures c.limit.percent && 0 < c.limit.value <= 100 && DisruptedWorkers(c, run[k]) != {} ==>
      100 * (|DisruptedWorkers(c, run[k])| - 1) < c.total * c.limit.value
  {
    DisruptionBudget(c, run, k);
    RunInv(c, run, k);
    MaxParallel.LimitCaseByCase(c.limit, c.total);
    if c.limit.percent && 0 < c.limit.value <= 100 && DisruptedWorkers(c, run[k]) != {} {
      assert c.total > 0;
      MaxParallel.LimitBounds(c.limit, c.total);
    }
  }

  lemma CalmPhases(opts: Options, modern: bool, s: Node)
    requires NodeInv(opts, modern, s)
    ensures s.phase.Pending? || s.phase == Finished(true) ==> !Disrupted(s)
  {
  }

  lemma ControlBudget(c: Config, st: State)
    requires ValidConfig(c) && Inv(c, st) && st.stage.ControlPlane?
    ensures |DisruptedControls(c, st)| <= 1 && DisruptedWorkers(c, st) == {}
  {
    forall j: nat | j < |st.nodes| && Disrupted(st.nodes[j]) ensures j == st.stage.k && j < c.cps {
      CalmPhases(c.opts, c.modern[j], st.nodes[j]);
    }
    assert DisruptedControls(c, st) <= {st.stage.k};
    SubsetSize(DisruptedControls(c, st), {st.stage.k});
  }

  /** Each goroutine owns at most one touched and unfinished node, since after a
      failure it takes no other. */
  lemma WorkerBudget(c: Config, st: State)
    requires ValidConfig(c) && Inv(c, st) && st.stage.Pooled?
    ensures DisruptedControls(c, st) == {} && |DisruptedWorkers(c, st)| <= PoolSize(c)
  {
    var pool := st.stage.pool;
    forall j: nat | j < c.cps ensures !Disrupted(st.nodes[j]) {
      CalmPhases(c.opts, c.modern[j], st.nodes[j]);
    }
    var owned := set j | j in DisruptedWorkers(c, st) :: j - c.cps;
    forall i | i in owned ensures i < |pool.took| && Owned(pool, i) {
      CalmPhases(c.opts, c.modern[c.cps + i], st.nodes[c.cps + i]);
      assert CallMatches(pool, i, st.nodes[c.cps + i].phase);
      assert Pool.Fate(pool, i, pool.pcs[pool.took[i]]);
    }
    InjectionBound(owned, pool.took, |pool.pcs|);
    ShiftSize(DisruptedWorkers(c, st), c.cps);
  }

  predicate Owned(pool: Pool.State, i: nat)
    requires i < |pool.took|
  {
    var w := pool.took[i];
    w < |pool.pcs| && (pool.pcs[w] == Pool.Running(i) || Pool.Broke(pool.pcs[w], i))
  }

  lemma {:induction false} ShiftSize(s: set<nat>, d: nat)
    requires forall j :: j in s ==> d <= j
    ensures |set j | j in s :: j - d| == |s|
  {
    if x :| x in s {
      var shifted, rest := set j | j in s :: j - d, set j | j in s - {x} :: j - d;
      ShiftSize(s - {x}, d);
      forall y | y in shifted ensures y in rest + {x - d} {
        var j :| j in s && y == j - d;
        assert j == x || j in s - {x};
      }
      assert shifted == rest + {x - d};
    }
  }

  // ---------------------------------------------------------------- how a run ends

  predicate Undisturbed(s: Node) { s.phase == Finished(true) && !s.marks.cordoned && !s.marks.rebooting }

  /** nil means that every node of the worklist was upgraded and none is left cordoned
      or unstable; an error means that some node's upgrade failed. */
  lemma WhatReturningMeans(c: Config, run: seq<State>, k: nat)
    requires ValidConfig(c) && IsRun(c, run) && k < |run|
    ensures Returned(c, run[k]) == Some(true) ==>
      forall j :: 0 <= j < |run[k].nodes| ==> Undisturbed(run[k].nodes[j])
    ensures Returned(c, run[k]) == Some(false) ==>
      exists j :: 0 <= j < |run[k].nodes| && run[k].nodes[j].phase == Finished(false)
  {
    var st := run[k];
    RunInv(c, run, k);
    forall j | 0 <= j < |st.nodes| ensures st.nodes[j].phase == Finished(true) ==> !Disrupted(st.nodes[j]) {
      CalmPhases(c.opts, c.modern[j], st.nodes[j]);
    }
    if st.stage.Pooled? && Returned(c, st).Some? {
      PooledReturn(c, st);
    }
  }

  lemma PooledReturn(c: Config, st: State)
    requires ValidConfig(c) && Inv(c, st) && st.stage.Pooled? && Pool.Finished(st.stage.pool)
    ensures if st.stage.pool.errs == [] then
        forall j :: 0 <= j < |st.nodes| ==> st.nodes[j].phase == Finished(true)
      else
        exists j :: 0 <= j < |st.nodes| && st.nodes[j].phase == Finished(false)
  {
    var pool := st.stage.pool;
    if pool.errs == [] {
      assert Pool.PlaceInv(Workers(c), pool, 0) && pool.pcs[0].Exited?;
      forall j | c.cps <= j < |st.nodes| ensures st.nodes[j].phase == Finished(true) {
        var i := j - c.cps;
        assert Pool.Fate(pool, i, pool.pcs[pool.took[i]]) && Pool.PlaceInv(Workers(c), pool, pool.took[i]);
        assert CallMatches(pool, i, st.nodes[j].phase);
      }
    } else {
      var i := pool.errs[0];
      assert i in pool.errs;
      assert Pool.PlaceInv(Workers(c), pool, pool.took[i]);
      assert CallMatches(pool, i, st.nodes[c.cps + i].phase);
      assert st.nodes[c.cps + i].phase == Finished(false);
    }
  }

  /** As long as Execute has not returned, something can happen next. */
  lemma SomethingCanHappen(c: Config, st: State)
    requires ValidConfig(c) && Inv(c, st) && Returned(c, st).None?
    ensures exists e :: CanStep(c, st, e)
  {
    match st.stage {
      case ControlPlane(k) =>
        var e := if k == c.cps then StartPool else if st.nodes[k].phase.Finished? then ControlNext else ControlCall(Ok);
        assert CanStep(c, st, e);
      case Pooled(pool) =>
        var w :| 0 <= w < |pool.pcs| && !pool.pcs[w].Exited?;
        assert Pool.PlaceInv(Workers(c), pool, w);
        if pool.pcs[w].Running? {
          var phase := st.nodes[c.cps + pool.pcs[w].i].phase;
          var e := if phase.Finished? then PoolStep(w, Pool.Return(phase.ok)) else WorkerCall(w, Ok);
          assert CanStep(c, st, e);
        } else {
          var l := Pool.MoveOn(Workers(c), pool, w);
          assert CanStep(c, st, PoolStep(w, l));
        }
    }
  }

  function CallsLeft(s: Node): nat { Rank(s.phase) }

  function Remaining(c: Config, st: State): nat
    requires ValidConfig(c) && Inv(c, st)
  {
    Total(st.nodes, CallsLeft) +
    match st.stage
    case ControlPlane(k) => c.cps - k + 1 + 6 * Workers(c) + (if Workers(c) > 0 then PoolSize(c) else 0)
    case Pooled(pool) => Pool.Remaining(Workers(c), pool)
  }

  /** Every step brings the run closer to its end, so Execute returns. */
  lemma StepsRunOut(c: Config, st: State, e: Event)
    requires ValidConfig(c) && Inv(c, st) && CanStep(c, st, e)
    ensures Inv(c, NextState(c, st, e)) && Remaining(c, NextState(c, st, e)) < Remaining(c, st)
  {
    StepInv(c, st, e);
    match e {
      case ControlCall(r) =>
        TotalUpdate(st.nodes, CallsLeft, st.stage.k, NextState(c, st, e).nodes[st.stage.k]);
        RankFalls(c.opts, c.modern[st.stage.k], st.nodes[st.stage.k], r);
      case ControlNext =>
      case StartPool => Pool.TotalReady(PoolSize(c));
      case PoolStep(w, l) => Pool.StepsRunOut(Workers(c), st.stage.pool, w, l);
      case WorkerCall(w, r) =>
        var j := c.cps + st.stage.pool.pcs[w].i;
        TotalUpdate(st.nodes, CallsLeft, j, NextState(c, st, e).nodes[j]);
        RankFalls(c.opts, c.modern[j], st.nodes[j], r);
    }
  }
}
