/** The disruption budget is reached: a run in which as many workers reboot at once as
    the limit and their number allow. */
module FullUse {
  import opened Common
  import opened NodeUpgrade
  import opened Rollout
  import MaxParallel
  import Pool

  function Last(run: seq<State>): State
    requires run != []
  {
    run[|run| - 1]
  }

  lemma Extend(c: Config, run: seq<State>, e: Event) returns (longer: seq<State>)
    requires IsRun(c, run) && CanStep(c, Last(run), e)
    ensures IsRun(c, longer) && Last(longer) == NextState(c, Last(run), e)
  {
    longer := run + [NextState(c, Last(run), e)];
    forall k | 0 <= k < |longer| - 1 ensures Step(c, longer[k], longer[k + 1]) {
      if k == |run| - 1 {
        assert CanStep(c, longer[k], e);
      } else {
        assert Step(c, run[k], run[k + 1]);
      }
    }
  }

  // ---------------------------------------------------------------- the control planes

  lemma OkGoesOn(opts: Options, modern: bool, s: Node)
    requires !s.phase.Finished?
    ensures Next(opts, modern, s, Ok).phase != Finished(false)
  {
  }

  /** Control-plane node k, upgraded to its end with every call succeeding. */
  lemma {:induction false} FinishControl(c: Config, run: seq<State>, k: nat) returns (longer: seq<State>)
    requires IsRun(c, run) && Last(run).stage == ControlPlane(k) && k < c.cps
    requires k < |Last(run).nodes| == |c.modern| && Last(run).nodes[k].phase != Finished(false)
    ensures IsRun(c, longer) && Last(longer).stage == ControlPlane(k)
    ensures var nodes := Last(longer).nodes;
      |nodes| == |c.modern| && nodes[k].phase == Finished(true) && nodes == Last(run).nodes[k := nodes[k]]
    decreases Rank(Last(run).nodes[k].phase)
  {
    var s := Last(run).nodes[k];
    longer := run;
    if !s.phase.Finished? {
      OkGoesOn(c.opts, c.modern[k], s);
      RankFalls(c.opts, c.modern[k], s, Ok);
      longer := Extend(c, run, ControlCall(Ok));
      longer := FinishControl(c, longer, k);
    }
  }

  lemma {:induction false} FinishControls(c: Config, k: nat) returns (run: seq<State>)
    requires ValidConfig(c) && k <= c.cps
    ensures IsRun(c, run) && Last(run).stage == ControlPlane(k) && |Last(run).nodes| == |c.modern|
    ensures forall j :: k <= j < |c.modern| ==> Last(run).nodes[j] == UNTOUCHED
  {
    if k == 0 {
      run := [Init(c)];
    } else {
      run := FinishControls(c, k - 1);
      run := FinishControl(c, run, k - 1);
      run := Extend(c, run, ControlNext);
    }
  }

  // ---------------------------------------------------------------- the workers

  predicate BeforeReboot(s: Node) { Rank(s.phase) > Rank(Stabilizing) }

  lemma OkReachesReboot(opts: Options, modern: bool, s: Node)
    requires BeforeReboot(s)
    ensures var t := Next(opts, modern, s, Ok); BeforeReboot(t) || (t.phase.Stabilizing? && t.marks.rebooting)
  {
  }

  ghost predicate RunsNode(c: Config, st: State, i: nat) {
    && st.stage.Pooled? && i < |st.stage.pool.pcs| && st.stage.pool.pcs[i] == Pool.Running(i)
    && c.cps + i < |st.nodes| == |c.modern|
  }

  /** Goroutine i brings its node to the reboot. */
  lemma {:induction false} RebootWorker(c: Config, run: seq<State>, i: nat) returns (longer: seq<State>)
    requires IsRun(c, run) && RunsNode(c, Last(run), i) && BeforeReboot(Last(run).nodes[c.cps + i])
    ensures IsRun(c, longer) && Last(longer).stage == Last(run).stage
    ensures var nodes := Last(longer).nodes;
      && |nodes| == |c.modern| && nodes == Last(run).nodes[c.cps + i := nodes[c.cps + i]]
      && Disrupted(nodes[c.cps + i])
    decreases Rank(Last(run).nodes[c.cps + i].phase)
  {
    var s := Last(run).nodes[c.cps + i];
    OkReachesReboot(c.opts, c.modern[c.cps + i], s);
    RankFalls(c.opts, c.modern[c.cps + i], s, Ok);
    longer := Extend(c, run, WorkerCall(i, Ok));
    if BeforeReboot(Last(longer).nodes[c.cps + i]) {
      longer := RebootWorker(c, longer, i);
    }
  }

  /** The first i goroutines each run a node that is rebooting; the others have not begun. */
  ghost predicate Busy(c: Config, st: State, i: nat) {
    && st.stage.Pooled? && |st.nodes| == |c.modern|
    && Workers(c) > 0 && i <= |st.stage.pool.pcs| == PoolSize(c)
    && |st.stage.pool.took| == i && !st.stage.pool.stop
    && (forall w :: 0 <= w < |st.stage.pool.pcs| ==>
        st.stage.pool.pcs[w] == if w < i then Pool.Running(w) else Pool.Ready)
    && (forall j :: c.cps <= j < |st.nodes| ==>
        if j < c.cps + i then Disrupted(st.nodes[j]) else st.nodes[j] == UNTOUCHED)
  }

  /** Goroutine i takes node i and is about to work on it. */
  lemma StartWorker(c: Config, run: seq<State>, i: nat) returns (longer: seq<State>)
    requires ValidConfig(c) && IsRun(c, run) && Busy(c, Last(run), i) && i < PoolSize(c)
    ensures IsRun(c, longer) && RunsNode(c, Last(longer), i)
    ensures var st, st' := Last(run), Last(longer);
      && st'.nodes == st.nodes && |st'.stage.pool.took| == i + 1 && !st'.stage.pool.stop
      && st'.stage.pool.pcs == st.stage.pool.pcs[i := Pool.Running(i)]
  {
    longer := Extend(c, run, PoolStep(i, Pool.Receive));
    longer := Extend(c, longer, PoolStep(i, Pool.LoadStop));
    longer := Extend(c, longer, PoolStep(i, Pool.Call));
  }

  lemma {:induction false} KeepBusy(c: Config, i: nat) returns (run: seq<State>)
    requires ValidConfig(c) && Workers(c) > 0 && i <= PoolSize(c)
    ensures IsRun(c, run) && Busy(c, Last(run), i)
  {
    if i == 0 {
      run := FinishControls(c, c.cps);
      run := Extend(c, run, StartPool);
    } else {
      run := KeepBusy(c, i - 1);
      run := StartWorker(c, run, i - 1);
      run := RebootWorker(c, run, i - 1);
    }
  }

  function Interval(from: nat, n: nat): (r: set<nat>)
    ensures |r| == n && forall j :: j in r ==> from <= j < from + n
  {
    if n == 0 then {} else Interval(from, n - 1) + {from + n - 1}
  }

  /** Whatever the configuration, some run has as many disrupted workers at once as the
      limit and their number allow: the budget is exact, and the pool is used in full. */
  lemma BudgetIsReached(c: Config) returns (run: seq<State>)
    requires ValidConfig(c) && Workers(c) > 0
    ensures IsRun(c, run)
    ensures var limit, workers := MaxParallel.Limit(c.limit, c.total), Workers(c);
      |DisruptedWorkers(c, Last(run))| == if limit <= workers then limit else workers
  {
    MaxParallel.LimitBounds(c.limit, c.total);
    run := KeepBusy(c, PoolSize(c));
    DisruptionBudget(c, run, |run| - 1);
    SubsetSize(Interval(c.cps, PoolSize(c)), DisruptedWorkers(c, Last(run)));
  }
}
