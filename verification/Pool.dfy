/** The bounded worker pool: n goroutines pulling nodes from a closed queue, a stop
    flag, and a channel of errors. Every interleaving is a sequence of the steps below. */
module Pool {
  import opened Common
  import opened Picking

  /** Where a goroutine stands; the number is the node it holds. */
  datatype Pc =
    | Ready                       // about to receive from the queue
    | Received(i: nat)            // about to load stop
    | Cleared(i: nat)             // loaded false, about to call fn
    | Running(i: nat)             // inside fn
    | Failed(i: nat)              // fn returned an error, about to send it
    | Sent(i: nat)                // about to store stop
    | Exited(broke: Option<nat>)  // returned, because of its own failing node or not

  datatype Label = Receive | FindEmpty | LoadStop | Call | Return(ok: bool) | Send | Store

  /** took lists the goroutine that received each node, so its length is the number
      of nodes dequeued. calls and results record what happened: the calls to fn in
      order, and how they ended. */
  datatype State = State(
    stop: bool, errs: seq<nat>, pcs: seq<Pc>, took: seq<nat>, calls: seq<nat>, results: map<nat, bool>)

  /** The pool size RunConcurrent settles on. */
  function Size(len: nat, n: int): (size: nat)
    requires len > 0
    ensures size == if n < 1 then 1 else if n <= len then n else len
  {
    var atLeastOne := if n < 1 then 1 else n;
    if atLeastOne > len then len else atLeastOne
  }

  function Init(n: nat): State {
    State(false, [], seq(n, _ => Ready), [], [], map[])
  }

  predicate CanStep(len: nat, st: State, w: nat, l: Label) {
    w < |st.pcs| &&
    match l
    case Receive => st.pcs[w].Ready? && |st.took| < len
    case FindEmpty => st.pcs[w].Ready? && |st.took| == len
    case LoadStop => st.pcs[w].Received?
    case Call => st.pcs[w].Cleared?
    case Return(_) => st.pcs[w].Running?
    case Send => st.pcs[w].Failed? && |st.errs| < len
    case Store => st.pcs[w].Sent?
  }

  function Move(st: State, w: nat, pc: Pc): State
    requires w < |st.pcs|
  {
    st.(pcs := st.pcs[w := pc])
  }

  function Next(len: nat, st: State, w: nat, l: Label): State
    requires CanStep(len, st, w, l)
  {
    match l
    case Receive => Move(st, w, Received(|st.took|)).(took := st.took + [w])
    case FindEmpty => Move(st, w, Exited(None))
    case LoadStop => Move(st, w, if st.stop then Exited(None) else Cleared(st.pcs[w].i))
    case Call =>
      var i := st.pcs[w].i;
      Move(st, w, Running(i)).(calls := st.calls + [i])
    case Return(ok) =>
      var i := st.pcs[w].i;
      Move(st, w, if ok then Ready else Failed(i)).(results := st.results[i := ok])
    case Send =>
      var i := st.pcs[w].i;
      Move(st, w, Sent(i)).(errs := st.errs + [i])
    case Store =>
      var i := st.pcs[w].i;
      Move(st, w, Exited(Some(i))).(stop := true)
  }

  ghost predicate Step(len: nat, st: State, st': State) {
    exists w, l :: CanStep(len, st, w, l) && st' == Next(len, st, w, l)
  }

  /** A finite execution of the pool from its start. */
  ghost predicate IsRun(len: nat, n: nat, run: seq<State>) {
    && run != [] && run[0] == Init(n)
    && forall k :: 0 <= k < |run| - 1 ==> Step(len, run[k], run[k + 1])
  }

  /** wg.Wait has returned. */
  predicate Finished(st: State) { forall w :: 0 <= w < |st.pcs| ==> st.pcs[w].Exited? }

  // ---------------------------------------------------------------- the invariant

  predicate Untried(pc: Pc, i: nat) { pc == Received(i) || pc == Cleared(i) }

  predicate Broke(pc: Pc, i: nat) { pc == Failed(i) || pc == Sent(i) || pc == Exited(Some(i)) }

  predicate Reported(pc: Pc, i: nat) { pc == Sent(i) || pc == Exited(Some(i)) }

  /** What became of dequeued node i, whose goroutine stands at pc. */
  predicate Fate(st: State, i: nat, pc: Pc) {
    if i in st.results then
      i in st.calls && (!st.results[i] ==> Broke(pc, i))
    else
      && (i in st.calls <==> pc == Running(i))
      && (i !in st.calls ==> Untried(pc, i) || (st.stop && pc == Exited(None)))
  }

  ghost predicate Inv(len: nat, st: State) {
    && |st.took| <= len
    && (forall i :: 0 <= i < |st.took| ==> st.took[i] < |st.pcs| && Fate(st, i, st.pcs[st.took[i]]))
    && (forall w :: 0 <= w < |st.pcs| ==> PlaceInv(len, st, w))
    && (forall i :: i in st.results ==> i < |st.took|)
    && (forall i :: i in st.calls ==> i < |st.took|)
    && (forall i :: i in st.errs ==> i < |st.took| && Reported(st.pcs[st.took[i]], i))
    && NoDuplicates(st.calls) && NoDuplicates(st.errs)
    && (st.stop ==> st.errs != [])
  }

  ghost predicate PlaceInv(len: nat, st: State, w: nat)
    requires w < |st.pcs|
  {
    match st.pcs[w]
    case Ready => true
    case Received(i) => i < |st.took| && st.took[i] == w && i !in st.results
    case Cleared(i) => i < |st.took| && st.took[i] == w && i !in st.results
    case Running(i) => i < |st.took| && st.took[i] == w && i !in st.results
    case Failed(i) => i < |st.took| && st.took[i] == w && i in st.results && !st.results[i]
    case Sent(i) => i < |st.took| && st.took[i] == w && i in st.results && !st.results[i] && i in st.errs
    case Exited(None) => st.stop || |st.took| == len
    case Exited(Some(i)) =>
      st.stop && i < |st.took| && st.took[i] == w && i in st.results && !st.results[i] && i in st.errs
  }

  lemma InitInv(len: nat, n: nat)
    ensures Inv(len, Init(n))
  {
  }

  lemma StepInv(len: nat, st: State, w: nat, l: Label)
    requires Inv(len, st) && CanStep(len, st, w, l)
    ensures Inv(len, Next(len, st, w, l))
  {
    var st' := Next(len, st, w, l);
    forall i | 0 <= i < |st'.took| ensures st'.took[i] < |st'.pcs| && Fate(st', i, st'.pcs[st'.took[i]]) {
      StepFate(len, st, w, l, i);
    }
    forall v | 0 <= v < |st'.pcs| ensures PlaceInv(len, st', v) {
      StepPlace(len, st, w, l, v);
    }
    StepLogs(len, st, w, l);
  }

  lemma StepFate(len: nat, st: State, w: nat, l: Label, i: nat)
    requires Inv(len, st) && CanStep(len, st, w, l) && i < |Next(len, st, w, l).took|
    ensures var st' := Next(len, st, w, l);
      st'.took[i] < |st'.pcs| && Fate(st', i, st'.pcs[st'.took[i]])
  {
    assert PlaceInv(len, st, w);
    if i < |st.took| {
      assert Fate(st, i, st.pcs[st.took[i]]);
    }
  }

  lemma StepPlace(len: nat, st: State, w: nat, l: Label, v: nat)
    requires Inv(len, st) && CanStep(len, st, w, l) && v < |st.pcs|
    ensures PlaceInv(len, Next(len, st, w, l), v)
  {
    if v == w {
      StepOwnPlace(len, st, w, l);
    } else {
      StepOtherPlace(len, st, w, l, v);
    }
  }

  lemma StepOwnPlace(len: nat, st: State, w: nat, l: Label)
    requires Inv(len, st) && CanStep(len, st, w, l)
    ensures PlaceInv(len, Next(len, st, w, l), w)
  {
    assert PlaceInv(len, st, w);
    if l.LoadStop? || l.Call? {
      assert Fate(st, st.pcs[w].i, st.pcs[w]);
    }
  }

  /** Another goroutine holds another node, so nothing it relies on changes. */
  lemma StepOtherPlace(len: nat, st: State, w: nat, l: Label, v: nat)
    requires Inv(len, st) && CanStep(len, st, w, l) && v < |st.pcs| && v != w
    ensures PlaceInv(len, Next(len, st, w, l), v)
  {
    assert PlaceInv(len, st, w) && PlaceInv(len, st, v);
  }

  lemma StepLogs(len: nat, st: State, w: nat, l: Label)
    requires Inv(len, st) && CanStep(len, st, w, l)
    ensures var st' := Next(len, st, w, l);
      && |st'.took| <= len
      && (forall i :: i in st'.results ==> i < |st'.took|)
      && (forall i :: i in st'.calls ==> i < |st'.took|)
      && (forall i :: i in st'.errs ==> i < |st'.took| && Reported(st'.pcs[st'.took[i]], i))
      && NoDuplicates(st'.calls) && NoDuplicates(st'.errs)
      && (st'.stop ==> st'.errs != [])
  {
    assert PlaceInv(len, st, w);
    if l.Call? {
      assert Fate(st, st.pcs[w].i, st.pcs[w]);
    }
  }

  lemma {:induction false} RunInv(len: nat, n: nat, run: seq<State>, k: nat)
    requires IsRun(len, n, run) && k < |run|
    ensures Inv(len, run[k]) && |run[k].pcs| == n
  {
    if k > 0 {
      RunInv(len, n, run, k - 1);
      assert Step(len, run[k - 1], run[k]);
      var w, l :| CanStep(len, run[k - 1], w, l) && run[k] == Next(len, run[k - 1], w, l);
      StepInv(len, run[k - 1], w, l);
    }
  }

  // ---------------------------------------------------------------- the result

  /** Under every interleaving, at every moment: no node is run twice, only the
      dequeued prefix of the queue is touched, every error sent is the error of a
      call that failed, and no more than n are ever sent. */
  lemma NeverTwice(len: nat, n: nat, run: seq<State>, k: nat)
    requires IsRun(len, n, run) && k < |run|
    ensures NoDuplicates(run[k].calls) && |run[k].calls| <= |run[k].took| <= len
    ensures forall i :: i in run[k].calls ==> i < |run[k].took|
    ensures forall i :: i in run[k].errs ==> i in run[k].results && !run[k].results[i]
    ensures NoDuplicates(run[k].errs) && |run[k].errs| <= n
  {
    var st := run[k];
    RunInv(len, n, run, k);
    DistinctBelow(st.calls, |st.took|);
    forall i | i in st.errs ensures i in st.results && !st.results[i] {
      assert PlaceInv(len, st, st.took[i]);
    }
    ElementsOfDistinct(st.errs);
    InjectionBound((set i | i in st.errs), st.took, n);
  }

  lemma DistinctBelow(s: seq<nat>, n: nat)
    requires NoDuplicates(s) && forall i :: i in s ==> i < n
    ensures |s| <= n
  {
    ElementsOfDistinct(s);
    BoundedSetSize((set i | i in s), n);
  }

  /** When all goroutines have returned, the joined errors are exactly those of the
      failing calls, none dropped; and with none, every node ran once and succeeded. */
  lemma ResultIsExact(len: nat, n: nat, run: seq<State>)
    requires n > 0 && IsRun(len, n, run) && Finished(run[|run| - 1])
    ensures var end := run[|run| - 1];
      && (forall i :: i in end.calls <==> i in end.results)
      && (forall i :: i in end.errs <==> i in end.results && !end.results[i])
      && (end.errs == [] <==>
          |end.calls| == len && forall i :: 0 <= i < len ==> i in end.results && end.results[i])
  {
    var end := run[|run| - 1];
    RunInv(len, n, run, |run| - 1);
    NeverTwice(len, n, run, |run| - 1);
    forall i | 0 <= i < |end.took|
      ensures i in end.calls <==> i in end.results
      ensures i in end.results && !end.results[i] ==> i in end.errs
      ensures i !in end.results ==> end.stop
    {
      assert Fate(end, i, end.pcs[end.took[i]]) && PlaceInv(len, end, end.took[i]);
    }
    if end.errs == [] {
      assert PlaceInv(len, end, 0) && end.pcs[0].Exited?;
      forall i | 0 <= i < len ensures i in end.calls {
        assert i < |end.took|;
      }
      ElementsOfDistinct(end.calls);
      SetOfAllBelow((set i | i in end.calls), len);
    } else {
      assert end.errs[0] in end.errs;
    }
  }

  // ---------------------------------------------------------------- stopping early

  function IsCleared(pc: Pc): nat { if pc.Cleared? then 1 else 0 }

  /** Calls begun, and calls that will begin although stop is set. */
  function Committed(st: State): nat { |st.calls| + Total(st.pcs, IsCleared) }

  lemma StepCommitted(len: nat, st: State, w: nat, l: Label)
    requires st.stop && CanStep(len, st, w, l)
    ensures var st' := Next(len, st, w, l); st'.stop && st.calls <= st'.calls && Committed(st') <= Committed(st)
  {
    TotalUpdate(st.pcs, IsCleared, w, Next(len, st, w, l).pcs[w]);
  }

  lemma AnyStepCommitted(len: nat, st: State, st': State)
    requires st.stop && Step(len, st, st')
    ensures st'.stop && st.calls <= st'.calls && Committed(st') <= Committed(st)
  {
    var w, l :| CanStep(len, st, w, l) && st' == Next(len, st, w, l);
    StepCommitted(len, st, w, l);
  }

  /** Whoever reported an error makes no further call, so at most n-1 goroutines can. */
  lemma FewAreCleared(len: nat, st: State)
    requires Inv(len, st) && st.stop
    ensures Total(st.pcs, IsCleared) < |st.pcs|
  {
    assert st.errs[0] in st.errs;
    var w := st.took[st.errs[0]];
    TotalUpdate(st.pcs, IsCleared, w, Cleared(0));
    TotalAtMostLength(st.pcs[w := Cleared(0)], IsCleared);
  }

  lemma {:induction false} CommittedAfterStop(len: nat, n: nat, run: seq<State>, j: nat, k: nat)
    requires IsRun(len, n, run) && j <= k < |run| && run[j].stop
    ensures run[k].stop && run[j].calls <= run[k].calls && Committed(run[k]) <= Committed(run[j])
  {
    if j < k {
      CommittedAfterStop(len, n, run, j, k - 1);
      assert Step(len, run[k - 1], run[k]);
      AnyStepCommitted(len, run[k - 1], run[k]);
    }
  }

  /** A goroutine that has returned because its node failed has set stop. Once stop is
      set it stays, and from then on at most n-1 more calls to fn begin. */
  lemma FewCallsAfterStop(len: nat, n: nat, run: seq<State>, j: nat, k: nat)
    requires IsRun(len, n, run) && j <= k < |run|
    ensures forall w :: 0 <= w < |run[j].pcs| && run[j].pcs[w].Exited? && run[j].pcs[w].broke.Some? ==> run[j].stop
    ensures run[j].stop ==> run[k].stop && run[j].calls <= run[k].calls && |run[k].calls| <= |run[j].calls| + n - 1
  {
    RunInv(len, n, run, j);
    forall w | 0 <= w < |run[j].pcs| && run[j].pcs[w].Exited? && run[j].pcs[w].broke.Some? ensures run[j].stop {
      assert PlaceInv(len, run[j], w);
    }
    if run[j].stop {
      CommittedAfterStop(len, n, run, j, k);
      FewAreCleared(len, run[j]);
    }
  }

  // ---------------------------------------------------------------- progress

  /** Every goroutine that has not returned has a step it can take now (fn itself is
      assumed to return): none waits for another, and the send never blocks. */
  lemma NobodyBlocks(len: nat, n: nat, run: seq<State>, k: nat, w: nat)
    requires IsRun(len, n, run) && k < |run| && w < |run[k].pcs| && !run[k].pcs[w].Exited?
    ensures exists l :: CanStep(len, run[k], w, l)
  {
    RunInv(len, n, run, k);
    var l := MoveOn(len, run[k], w);
  }

  lemma MoveOn(len: nat, st: State, w: nat) returns (l: Label)
    requires Inv(len, st) && w < |st.pcs| && !st.pcs[w].Exited?
    ensures CanStep(len, st, w, l) && (l.Return? <==> st.pcs[w].Running?)
  {
    assert PlaceInv(len, st, w);
    match st.pcs[w] {
      case Ready => l := if |st.took| < len then Receive else FindEmpty;
      case Received(_) => l := LoadStop;
      case Cleared(_) => l := Call;
      case Running(_) => l := Return(true);
      case Failed(i) =>
        assert i !in st.errs;
        DistinctBelow(st.errs + [i], len);
        l := Send;
      case Sent(_) => l := Store;
    }
  }

  function Work(pc: Pc): nat {
    match pc
    case Ready => 1
    case Received(_) => 6
    case Cleared(_) => 5
    case Running(_) => 4
    case Failed(_) => 3
    case Sent(_) => 2
    case Exited(_) => 0
  }

  function Remaining(len: nat, st: State): nat
    requires |st.took| <= len
  {
    6 * (len - |st.took|) + Total(st.pcs, Work)
  }

  /** Every step uses up some of the remaining work, so every execution ends. */
  lemma StepsRunOut(len: nat, st: State, w: nat, l: Label)
    requires |st.took| <= len && CanStep(len, st, w, l)
    ensures |Next(len, st, w, l).took| <= len
    ensures Remaining(len, Next(len, st, w, l)) < Remaining(len, st)
  {
    TotalUpdate(st.pcs, Work, w, Next(len, st, w, l).pcs[w]);
  }

  lemma {:induction false} RunsAreShort(len: nat, n: nat, run: seq<State>, k: nat)
    requires IsRun(len, n, run) && k < |run|
    ensures |run[k].took| <= len && k + Remaining(len, run[k]) <= 6 * len + n
  {
    if k == 0 {
      TotalReady(n);
    } else {
      RunsAreShort(len, n, run, k - 1);
      assert Step(len, run[k - 1], run[k]);
      var w, l :| CanStep(len, run[k - 1], w, l) && run[k] == Next(len, run[k - 1], w, l);
      StepsRunOut(len, run[k - 1], w, l);
    }
  }

  lemma {:induction false} TotalReady(n: nat)
    ensures Total(seq(n, _ => Ready), Work) == n
  {
    if n > 0 {
      TotalReady(n - 1);
      assert seq(n, _ => Ready)[1..] == seq(n - 1, _ => Ready);
    }
  }

  /** The calls end as outcomes says. */
  ghost predicate Agrees(st: State, outcomes: seq<bool>) {
    forall i :: i in st.results ==> i < |outcomes| && st.results[i] == outcomes[i]
  }

  /** Every execution can be continued to a complete one, whatever the calls return. */
  lemma {:induction false} Completes(len: nat, n: nat, run: seq<State>, outcomes: seq<bool>) returns (full: seq<State>)
    requires IsRun(len, n, run) && |outcomes| == len && Agrees(run[|run| - 1], outcomes)
    ensures IsRun(len, n, full) && run <= full
    ensures Finished(full[|full| - 1]) && Agrees(full[|full| - 1], outcomes)
    decreases 6 * len + n + 1 - |run|
  {
    var last := run[|run| - 1];
    RunsAreShort(len, n, run, |run| - 1);
    if Finished(last) {
      full := run;
    } else {
      var w :| 0 <= w < |last.pcs| && !last.pcs[w].Exited?;
      RunInv(len, n, run, |run| - 1);
      var next := OneMoreStep(len, last, w, outcomes);
      var longer := run + [next];
      LongerRun(len, n, run, next);
      RunsAreShort(len, n, longer, |run|);
      full := Completes(len, n, longer, outcomes);
    }
  }

  lemma LongerRun(len: nat, n: nat, run: seq<State>, next: State)
    requires IsRun(len, n, run) && Step(len, run[|run| - 1], next)
    ensures IsRun(len, n, run + [next])
  {
    var longer := run + [next];
    forall k | 0 <= k < |longer| - 1 ensures Step(len, longer[k], longer[k + 1]) {
      assert k < |run| - 1 ==> Step(len, run[k], run[k + 1]);
    }
  }

  lemma OneMoreStep(len: nat, st: State, w: nat, outcomes: seq<bool>) returns (st': State)
    requires Inv(len, st) && w < |st.pcs| && !st.pcs[w].Exited? && |outcomes| == len && Agrees(st, outcomes)
    ensures Step(len, st, st') && Agrees(st', outcomes)
  {
    var l := MoveOn(len, st, w);
    assert PlaceInv(len, st, w);
    if l.Return? { l := Return(outcomes[st.pcs[w].i]); }
    assert CanStep(len, st, w, l);
    st' := Next(len, st, w, l);
  }

  // ---------------------------------------------------------------- a pool of one

  /** The plain loop: run each node in turn, stop at the first error. Returns how
      many calls are made, and the node whose error is returned. */
  method RunInOrder(outcomes: seq<bool>) returns (calls: nat, error: Option<nat>)
    ensures (calls, error) == InOrder(outcomes)
  {
    calls := 0;
    while calls < |outcomes|
      invariant 0 <= calls <= |outcomes|
      invariant forall k :: 0 <= k < calls ==> outcomes[k]
    {
      calls := calls + 1;
      if !outcomes[calls - 1] {
        InOrderStopsAt(outcomes, calls - 1);
        return calls, Some(calls - 1);
      }
    }
    InOrderStopsAt(outcomes, |outcomes|);
    return calls, None;
  }

  function InOrder(outcomes: seq<bool>): (nat, Option<nat>) {
    if outcomes == [] then (0, None)
    else if !outcomes[0] then (1, Some(0))
    else
      var (calls, error) := InOrder(outcomes[1..]);
      (calls + 1, if error.Some? then Some(error.value + 1) else None)
  }

  lemma {:induction false} InOrderStopsAt(outcomes: seq<bool>, k: nat)
    requires k <= |outcomes| && forall j :: 0 <= j < k ==> outcomes[j]
    requires k < |outcomes| ==> !outcomes[k]
    ensures InOrder(outcomes) == if k < |outcomes| then (k + 1, Some(k)) else (k, None)
  {
    if k > 0 { InOrderStopsAt(outcomes[1..], k - 1); }
  }

  ghost predicate FirstOk(st: State, k: nat) { forall j :: 0 <= j < k ==> j in st.results && st.results[j] }

  ghost predicate AloneInv(len: nat, st: State) {
    && |st.pcs| == 1
    && var h := |st.took|;
      match st.pcs[0]
      case Ready => st.calls == Upto(h) && FirstOk(st, h) && st.errs == [] && !st.stop
      case Received(i) => h == i + 1 && st.calls == Upto(i) && FirstOk(st, i) && st.errs == [] && !st.stop
      case Cleared(i) => h == i + 1 && st.calls == Upto(i) && FirstOk(st, i) && st.errs == [] && !st.stop
      case Running(i) => h == i + 1 && st.calls == Upto(h) && FirstOk(st, i) && st.errs == [] && !st.stop
      case Failed(i) => h == i + 1 && st.calls == Upto(h) && FirstOk(st, i) && st.errs == [] && FailedAt(st, i)
      case Sent(i) => h == i + 1 && st.calls == Upto(h) && FirstOk(st, i) && st.errs == [i] && FailedAt(st, i)
      case Exited(Some(i)) => h == i + 1 && st.calls == Upto(h) && FirstOk(st, i) && st.errs == [i] && FailedAt(st, i)
      case Exited(None) => h == len && st.calls == Upto(h) && FirstOk(st, h) && st.errs == []
  }

  ghost predicate FailedAt(st: State, i: nat) { i in st.results && !st.results[i] }

  lemma StepAlone(len: nat, st: State, w: nat, l: Label)
    requires AloneInv(len, st) && CanStep(len, st, w, l)
    ensures AloneInv(len, Next(len, st, w, l))
  {
    if l.Call? {
      assert Upto(st.pcs[w].i) + [st.pcs[w].i] == Upto(st.pcs[w].i + 1);
    }
  }

  lemma {:induction false} RunAlone(len: nat, run: seq<State>, k: nat)
    requires IsRun(len, 1, run) && k < |run|
    ensures AloneInv(len, run[k])
  {
    if k > 0 {
      RunAlone(len, run, k - 1);
      assert Step(len, run[k - 1], run[k]);
      var w, l :| CanStep(len, run[k - 1], w, l) && run[k] == Next(len, run[k - 1], w, l);
      StepAlone(len, run[k - 1], w, l);
    }
  }

  /** With n = 1 the pool is the plain loop: same calls, same order, same error. */
  lemma PoolOfOneIsTheLoop(len: nat, run: seq<State>, outcomes: seq<bool>)
    requires IsRun(len, 1, run) && Finished(run[|run| - 1])
    requires |outcomes| == len
    requires var end := run[|run| - 1]; forall i :: i in end.results && i < len ==> end.results[i] == outcomes[i]
    ensures var end := run[|run| - 1]; var (calls, error) := InOrder(outcomes);
      end.calls == Upto(calls) && end.errs == (if error.Some? then [error.value] else [])
  {
    var end := run[|run| - 1];
    RunInv(len, 1, run, |run| - 1);
    RunAlone(len, run, |run| - 1);
    assert end.pcs[0].Exited?;
    InOrderStopsAt(outcomes, if end.errs == [] then len else end.errs[0]);
  }
}
