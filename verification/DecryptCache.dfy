/** The decrypt cache under concurrent callers: a map behind a lock, filled inside a
    singleflight call. Every interleaving is a sequence of the steps below. */
module DecryptCache {
  import opened Common

  datatype Result = Content(data: Text) | Failure

  /** Where one call of ReadFile stands; the number is the flight it leads or awaits. */
  datatype Pc =
    | Idle
    | Missed             // found nothing in the map, about to enter sf.Do
    | Loading(f: nat)    // leads the flight, reading and decrypting
    | Loaded(f: nat)     // about to store the result in the map
    | Stored(f: nat)     // about to end the flight with the result
    | Failed(f: nat)     // about to end the flight with an error
    | Waiting(f: nat)    // shares another caller's flight
    | Done(result: Result)

  datatype Flight = Flight(leader: nat, outcome: Option<Result>)

  datatype Label = Lookup | Enter | LoadOk | LoadFails | Store | End | Wake

  /** Caller c reads paths[c]. flights keeps every flight ever begun; loads[f] is the
      path flight f loads, so loads is the log of all forks; storedBy records which
      flight last stored a path in the map. */
  datatype State = State(
    cache: map<Text, Text>, inflight: map<Text, nat>, pcs: seq<Pc>, flights: seq<Flight>, loads: seq<Text>,
    storedBy: map<Text, nat>)

  /** load is what an uncached read returns when it succeeds; it may fail any time. */
  datatype Config = Config(paths: seq<Text>, load: Text -> Text)

  function Init(c: Config): State {
    State(map[], map[], seq(|c.paths|, _ => Idle), [], [], map[])
  }

  predicate CanStep(c: Config, st: State, w: nat, l: Label) {
    w < |c.paths| == |st.pcs| &&
    match l
    case Lookup => st.pcs[w].Idle?
    case Enter => st.pcs[w].Missed?
    case LoadOk => st.pcs[w].Loading?
    case LoadFails => st.pcs[w].Loading?
    case Store => st.pcs[w].Loaded?
    case End => (st.pcs[w].Stored? || st.pcs[w].Failed?) && st.pcs[w].f < |st.flights|
    case Wake => st.pcs[w].Waiting? && st.pcs[w].f < |st.flights| && st.flights[st.pcs[w].f].outcome.Some?
  }

  function Move(st: State, w: nat, pc: Pc): State
    requires w < |st.pcs|
  {
    st.(pcs := st.pcs[w := pc])
  }

  function Next(c: Config, st: State, w: nat, l: Label): State
    requires CanStep(c, st, w, l)
  {
    var path := c.paths[w];
    match l
    case Lookup => Move(st, w, if path in st.cache then Done(Content(st.cache[path])) else Missed)
    case Enter =>
      if path in st.inflight then Move(st, w, Waiting(st.inflight[path]))
      else
        var f := |st.flights|;
        Move(st, w, Loading(f)).(
          inflight := st.inflight[path := f], flights := st.flights + [Flight(w, None)], loads := st.loads + [path])
    case LoadOk => Move(st, w, Loaded(st.pcs[w].f))
    case LoadFails => Move(st, w, Failed(st.pcs[w].f))
    case Store =>
      var f := st.pcs[w].f;
      Move(st, w, Stored(f)).(cache := st.cache[path := c.load(path)], storedBy := st.storedBy[path := f])
    case End =>
      var f, r := st.pcs[w].f, if st.pcs[w].Stored? then Content(c.load(path)) else Failure;
      Move(st, w, Done(r)).(
        inflight := st.inflight - {path}, flights := st.flights[f := st.flights[f].(outcome := Some(r))])
    case Wake => Move(st, w, Done(st.flights[st.pcs[w].f].outcome.value))
  }

  ghost predicate Step(c: Config, st: State, st': State) {
    exists w, l :: CanStep(c, st, w, l) && st' == Next(c, st, w, l)
  }

  /** run is a finite execution that starts in run[0]. */
  ghost predicate IsExecution(c: Config, run: seq<State>) {
    run != [] && forall k :: 0 <= k < |run| - 1 ==> Step(c, run[k], run[k + 1])
  }

  ghost predicate IsRun(c: Config, run: seq<State>) { IsExecution(c, run) && run[0] == Init(c) }

  // ---------------------------------------------------------------- the invariant

  predicate Leads(pc: Pc, f: nat) { pc == Loading(f) || pc == Loaded(f) || pc == Stored(f) || pc == Failed(f) }

  ghost predicate Inv(c: Config, st: State) {
    && |st.pcs| == |c.paths| && |st.loads| == |st.flights|
    && (forall p :: p in st.cache ==>
        st.cache[p] == c.load(p) && p in st.storedBy && LoadSucceeded(st, p, st.storedBy[p]))
    && (forall f :: 0 <= f < |st.flights| ==> FlightInv(c, st, f))
    && (forall w :: 0 <= w < |st.pcs| ==> CallerInv(c, st, w))
    && (forall p :: p in st.inflight ==>
        st.inflight[p] < |st.flights| && st.loads[st.inflight[p]] == p && st.flights[st.inflight[p]].outcome.None?)
  }

  /** Flight f loaded p and succeeded: it has ended so, or is about to. */
  ghost predicate LoadSucceeded(st: State, p: Text, f: nat)
    requires |st.loads| == |st.flights|
  {
    && f < |st.flights| && st.loads[f] == p
    && match st.flights[f].outcome
       case None => st.flights[f].leader < |st.pcs| && st.pcs[st.flights[f].leader] == Stored(f)
       case Some(r) => r.Content?
  }

  ghost predicate FlightInv(c: Config, st: State, f: nat)
    requires f < |st.flights| == |st.loads|
  {
    match st.flights[f].outcome
    case None =>
      && st.loads[f] in st.inflight && st.inflight[st.loads[f]] == f
      && st.flights[f].leader < |st.pcs| && Leads(st.pcs[st.flights[f].leader], f)
    case Some(Content(d)) => d == c.load(st.loads[f]) && st.loads[f] in st.cache
    case Some(Failure) => true
  }

  ghost predicate CallerInv(c: Config, st: State, w: nat)
    requires w < |st.pcs| == |c.paths| && |st.flights| == |st.loads|
  {
    match st.pcs[w]
    case Idle => true
    case Missed => true
    case Loading(f) => LeaderInv(c, st, w, f)
    case Loaded(f) => LeaderInv(c, st, w, f)
    case Stored(f) => LeaderInv(c, st, w, f) && c.paths[w] in st.cache
    case Failed(f) => LeaderInv(c, st, w, f)
    case Waiting(f) => f < |st.flights| && st.loads[f] == c.paths[w]
    case Done(Content(d)) => d == c.load(c.paths[w]) && c.paths[w] in st.cache
    case Done(Failure) => exists f :: FailedFor(st, f, c.paths[w])
  }

  ghost predicate LeaderInv(c: Config, st: State, w: nat, f: nat)
    requires w < |c.paths| && |st.flights| == |st.loads|
  {
    f < |st.flights| && st.flights[f] == Flight(w, None) && st.loads[f] == c.paths[w]
  }

  ghost predicate FailedFor(st: State, f: int, path: Text)
    requires |st.flights| == |st.loads|
  {
    0 <= f < |st.flights| && st.flights[f].outcome == Some(Failure) && st.loads[f] == path
  }

  lemma StepInv(c: Config, st: State, w: nat, l: Label)
    requires Inv(c, st) && CanStep(c, st, w, l)
    ensures Inv(c, Next(c, st, w, l))
  {
    var st' := Next(c, st, w, l);
    assert CallerInv(c, st, w);
    StepInflight(c, st, w, l);
    forall p | p in st'.cache ensures p in st'.storedBy && LoadSucceeded(st', p, st'.storedBy[p]) {
      StepStored(c, st, w, l, p);
    }
    forall f | 0 <= f < |st'.flights| ensures FlightInv(c, st', f) {
      StepFlight(c, st, w, l, f);
    }
    forall v | 0 <= v < |st'.pcs| ensures CallerInv(c, st', v) {
      StepCaller(c, st, w, l, v);
    }
  }

  lemma StepInflight(c: Config, st: State, w: nat, l: Label)
    requires Inv(c, st) && CanStep(c, st, w, l)
    ensures var st' := Next(c, st, w, l);
      forall p :: p in st'.inflight ==>
        st'.inflight[p] < |st'.flights| && st'.loads[st'.inflight[p]] == p && st'.flights[st'.inflight[p]].outcome.None?
  {
    assert CallerInv(c, st, w);
  }

  lemma StepStored(c: Config, st: State, w: nat, l: Label, p: Text)
    requires Inv(c, st) && CanStep(c, st, w, l) && p in Next(c, st, w, l).cache
    ensures var st' := Next(c, st, w, l);
      |st'.loads| == |st'.flights| && p in st'.storedBy && LoadSucceeded(st', p, st'.storedBy[p])
  {
    assert CallerInv(c, st, w);
  }

  lemma StepFlight(c: Config, st: State, w: nat, l: Label, f: nat)
    requires Inv(c, st) && CanStep(c, st, w, l) && f < |Next(c, st, w, l).flights|
    ensures FlightInv(c, Next(c, st, w, l), f)
  {
    assert CallerInv(c, st, w);
    if l.End? && f == st.pcs[w].f {
      assert FlightInv(c, st, f);
    } else if f < |st.flights| {
      OtherFlight(c, st, w, l, f);
    }
  }

  lemma OtherFlight(c: Config, st: State, w: nat, l: Label, f: nat)
    requires Inv(c, st) && CanStep(c, st, w, l) && f < |st.flights|
    requires l.End? ==> f != st.pcs[w].f
    ensures FlightInv(c, Next(c, st, w, l), f)
  {
    assert CallerInv(c, st, w) && FlightInv(c, st, f);
    if l.End? {
      assert FlightInv(c, st, st.pcs[w].f);
    }
  }

  lemma StepCaller(c: Config, st: State, w: nat, l: Label, v: nat)
    requires Inv(c, st) && CanStep(c, st, w, l) && v < |st.pcs|
    ensures CallerInv(c, Next(c, st, w, l), v)
  {
    if v == w {
      StepOwnCaller(c, st, w, l);
    } else {
      assert CallerInv(c, st, w) && CallerInv(c, st, v);
      StepExtends(c, st, w, l);
      OtherCaller(c, st, Next(c, st, w, l), w, v);
    }
  }

  lemma StepOwnCaller(c: Config, st: State, w: nat, l: Label)
    requires Inv(c, st) && CanStep(c, st, w, l)
    ensures CallerInv(c, Next(c, st, w, l), w)
  {
    var st' := Next(c, st, w, l);
    assert CallerInv(c, st, w);
    if l.Wake? || l.End? {
      assert FlightInv(c, st, st.pcs[w].f);
      assert st'.pcs[w] == Done(Failure) ==> FailedFor(st', st.pcs[w].f, c.paths[w]);
    }
  }

  /** What a step of caller w leaves to the others: their places, what is stored, and
      every flight but the one w leads. */
  ghost predicate Extends(st: State, st': State, w: nat) {
    && |st'.pcs| == |st.pcs| && (forall v :: 0 <= v < |st.pcs| && v != w ==> st'.pcs[v] == st.pcs[v])
    && st.cache.Keys <= st'.cache.Keys
    && |st.loads| == |st.flights| <= |st'.flights| == |st'.loads|
    && (forall f :: 0 <= f < |st.loads| ==> st'.loads[f] == st.loads[f])
    && (forall f :: 0 <= f < |st.flights| ==> st'.flights[f] == st.flights[f] || st.flights[f] == Flight(w, None))
  }

  lemma StepExtends(c: Config, st: State, w: nat, l: Label)
    requires |st.loads| == |st.flights| && CanStep(c, st, w, l) && CallerInv(c, st, w)
    ensures Extends(st, Next(c, st, w, l), w)
  {
  }

  lemma OtherCaller(c: Config, st: State, st': State, w: nat, v: nat)
    requires v < |st.pcs| == |c.paths| && v != w && Extends(st, st', w) && CallerInv(c, st, v)
    ensures CallerInv(c, st', v)
  {
    if st.pcs[v] == Done(Failure) {
      var f :| FailedFor(st, f, c.paths[v]);
      assert FailedFor(st', f, c.paths[v]);
    }
  }

  lemma {:induction false} ExecutionInv(c: Config, run: seq<State>, k: nat)
    requires IsExecution(c, run) && Inv(c, run[0]) && k < |run|
    ensures Inv(c, run[k])
  {
    if k > 0 {
      ExecutionInv(c, run, k - 1);
      AnyStepInv(c, run[k - 1], run[k]);
    }
  }

  lemma AnyStepInv(c: Config, st: State, st': State)
    requires Inv(c, st) && Step(c, st, st')
    ensures Inv(c, st')
  {
    var w, l :| CanStep(c, st, w, l) && st' == Next(c, st, w, l);
    StepInv(c, st, w, l);
  }

  lemma StepOf(c: Config, run: seq<State>, k: nat) returns (w: nat, l: Label)
    requires IsExecution(c, run) && k + 1 < |run|
    ensures CanStep(c, run[k], w, l) && run[k + 1] == Next(c, run[k], w, l)
  {
    assert Step(c, run[k], run[k + 1]);
    w, l :| CanStep(c, run[k], w, l) && run[k + 1] == Next(c, run[k], w, l);
  }

  // ---------------------------------------------------------------- agreement with uncached reads

  /** Under every interleaving a call that succeeds returns what an uncached read
      would, and leaves its path in the map; one that fails does so because a load of
      its path failed. */
  lemma CallsAgreeWithLoads(c: Config, run: seq<State>, k: nat, w: nat)
    requires IsRun(c, run) && k < |run| && w < |c.paths|
    ensures |run[k].pcs| == |c.paths| && |run[k].flights| == |run[k].loads|
    ensures match run[k].pcs[w]
      case Done(Content(d)) => d == c.load(c.paths[w]) && c.paths[w] in run[k].cache
      case Done(Failure) => exists f :: FailedFor(run[k], f, c.paths[w])
      case _ => true
  {
    ExecutionInv(c, run, k);
    assert CallerInv(c, run[k], w);
  }

  /** Every caller that waits for flight f in st can return r in ended. */
  ghost predicate AllWaitersGet(c: Config, st: State, ended: State, f: nat, r: Result) {
    forall v: nat :: v < |st.pcs| && st.pcs[v] == Waiting(f) ==>
      CanStep(c, ended, v, Wake) && Next(c, ended, v, Wake).pcs[v] == Done(r)
  }

  /** A flight whose load fails ends in failure for the caller that leads it and for
      every caller that waits, and leaves the map as it was. */
  lemma FailureIsShared(c: Config, st: State, w: nat)
    requires Inv(c, st) && w < |st.pcs| && st.pcs[w].Loading?
    ensures CanStep(c, st, w, LoadFails)
    ensures var failed := Next(c, st, w, LoadFails);
      CanStep(c, failed, w, End) &&
      var ended := Next(c, failed, w, End);
      && ended.pcs[w] == Done(Failure) && ended.cache == st.cache && c.paths[w] !in ended.inflight
      && AllWaitersGet(c, st, ended, st.pcs[w].f, Failure)
  {
    assert CallerInv(c, st, w);
  }

  /** One whose load succeeds gives the content to all of them, and to the map. */
  lemma SuccessIsShared(c: Config, st: State, w: nat)
    requires Inv(c, st) && w < |st.pcs| && st.pcs[w].Loading?
    ensures CanStep(c, st, w, LoadOk)
    ensures var loaded := Next(c, st, w, LoadOk);
      CanStep(c, loaded, w, Store) &&
      var stored := Next(c, loaded, w, Store);
      CanStep(c, stored, w, End) &&
      var ended, content := Next(c, stored, w, End), c.load(c.paths[w]);
      && ended.pcs[w] == Done(Content(content)) && ended.cache == st.cache[c.paths[w] := content]
      && AllWaitersGet(c, st, ended, st.pcs[w].f, Content(content))
  {
    assert CallerInv(c, st, w);
  }

  /** The map holds only what loads that succeeded returned: failures are never cached.
      So a look-up after a success answers at once, and correctly. */
  lemma OnlySuccessesAreCached(c: Config, run: seq<State>, k: nat, p: Text)
    requires IsRun(c, run) && k < |run| && p in run[k].cache
    ensures |run[k].flights| == |run[k].loads| && run[k].cache[p] == c.load(p)
    ensures exists f :: LoadSucceeded(run[k], p, f)
    ensures forall w: nat :: CanStep(c, run[k], w, Lookup) && c.paths[w] == p ==>
      Next(c, run[k], w, Lookup).pcs[w] == Done(Content(c.load(p)))
  {
    ExecutionInv(c, run, k);
    assert LoadSucceeded(run[k], p, run[k].storedBy[p]);
  }

  /** At most one load of a path is in progress. */
  lemma OneLoadAtATime(c: Config, run: seq<State>, k: nat, v: nat, w: nat, f: nat, g: nat)
    requires IsRun(c, run) && k < |run| && v < |run[k].pcs| && w < |run[k].pcs| == |c.paths|
    requires Leads(run[k].pcs[v], f) && Leads(run[k].pcs[w], g) && c.paths[v] == c.paths[w]
    ensures v == w
  {
    ExecutionInv(c, run, k);
    assert CallerInv(c, run[k], v) && CallerInv(c, run[k], w);
    assert FlightInv(c, run[k], f) && FlightInv(c, run[k], g);
  }

  /** Nobody waits for ever: as long as some call has not returned, a step is possible. */
  lemma SomebodyCanStep(c: Config, st: State, w: nat)
    requires Inv(c, st) && w < |st.pcs| && !st.pcs[w].Done?
    ensures exists v, l :: CanStep(c, st, v, l)
  {
    assert CallerInv(c, st, w);
    match st.pcs[w] {
      case Idle => assert CanStep(c, st, w, Lookup);
      case Missed => assert CanStep(c, st, w, Enter);
      case Waiting(f) =>
        if st.flights[f].outcome.Some? {
          assert CanStep(c, st, w, Wake);
        } else {
          assert FlightInv(c, st, f);
          var l := LeaderStep(c, st, st.flights[f].leader);
        }
      case _ => var l := LeaderStep(c, st, w);
    }
  }

  lemma LeaderStep(c: Config, st: State, w: nat) returns (l: Label)
    requires Inv(c, st) && w < |st.pcs|
    requires st.pcs[w].Loading? || st.pcs[w].Loaded? || st.pcs[w].Stored? || st.pcs[w].Failed?
    ensures CanStep(c, st, w, l)
  {
    assert CallerInv(c, st, w);
    l := match st.pcs[w] case Loading(_) => LoadOk case Loaded(_) => Store case _ => End;
  }

  /** Steps a caller may still take. */
  function Work(pc: Pc): nat {
    match pc
    case Idle => 6
    case Missed => 5
    case Loading(_) => 4
    case Loaded(_) => 3
    case Stored(_) => 2
    case Failed(_) => 2
    case Waiting(_) => 1
    case Done(_) => 0
  }

  lemma WorkFalls(c: Config, st: State, w: nat, l: Label)
    requires CanStep(c, st, w, l)
    ensures Total(Next(c, st, w, l).pcs, Work) < Total(st.pcs, Work)
  {
    TotalUpdate(st.pcs, Work, w, Next(c, st, w, l).pcs[w]);
  }

  lemma {:induction false} TotalIdle(n: nat)
    ensures Total(seq(n, _ => Idle), Work) == 6 * n
  {
    if n > 0 {
      TotalIdle(n - 1);
      assert seq(n, _ => Idle)[1..] == seq(n - 1, _ => Idle);
    }
  }

  /** Every execution ends: it has at most six steps for each call. Since a step is
      possible until all calls have returned, every call returns. */
  lemma {:induction false} RunsAreShort(c: Config, run: seq<State>, k: nat)
    requires IsRun(c, run) && k < |run|
    ensures k + Total(run[k].pcs, Work) <= 6 * |c.paths|
  {
    if k == 0 {
      TotalIdle(|c.paths|);
    } else {
      RunsAreShort(c, run, k - 1);
      var w, l := StepOf(c, run, k - 1);
      WorkFalls(c, run[k - 1], w, l);
    }
  }

  // ---------------------------------------------------------------- how often a path is loaded

  function LoadsOf(st: State, p: Text): nat { multiset(st.loads)[p] }

  /** Caller w may still begin a load of p: it has missed and not yet entered sf.Do, or
      has not looked yet and would miss. */
  predicate MayLoad(c: Config, st: State, p: Text, w: nat) {
    w < |st.pcs| == |c.paths| && c.paths[w] == p && (st.pcs[w].Missed? || (st.pcs[w].Idle? && p !in st.cache))
  }

  ghost function Candidates(c: Config, st: State, p: Text): set<nat> {
    set w: nat | w < |st.pcs| && MayLoad(c, st, p, w)
  }

  lemma StepCandidates(c: Config, st: State, w: nat, l: Label, p: Text)
    requires CanStep(c, st, w, l)
    ensures var st' := Next(c, st, w, l);
      && Candidates(c, st', p) <= Candidates(c, st, p)
      && (LoadsOf(st', p) == LoadsOf(st, p) ||
          (LoadsOf(st', p) == LoadsOf(st, p) + 1 && w in Candidates(c, st, p) && w !in Candidates(c, st', p)))
  {
    var st' := Next(c, st, w, l);
    assert st.cache.Keys <= st'.cache.Keys;
    forall v | v in Candidates(c, st', p) ensures v in Candidates(c, st, p) {
      assert v != w ==> st'.pcs[v] == st.pcs[v];
    }
    if l.Enter? && st'.loads != st.loads {
      assert st'.loads == st.loads + [c.paths[w]];
    }
  }

  lemma StepLoads(c: Config, st: State, w: nat, l: Label, p: Text)
    requires CanStep(c, st, w, l)
    ensures var st' := Next(c, st, w, l);
      && Candidates(c, st', p) <= Candidates(c, st, p)
      && LoadsOf(st', p) + |Candidates(c, st', p)| <= LoadsOf(st, p) + |Candidates(c, st, p)|
  {
    StepCandidates(c, st, w, l, p);
    var before, after := Candidates(c, st, p), Candidates(c, Next(c, st, w, l), p);
    SubsetSize(after, before);
    if w in before && w !in after { SubsetSize(after, before - {w}); }
  }

  /** At any moment, the loads of p still to come are bounded by the calls that may
      begin one, each at most one. Once p is stored these are the calls that had
      missed before. */
  lemma {:induction false} LoadsStillToCome(c: Config, run: seq<State>, k: nat, p: Text)
    requires IsExecution(c, run) && k < |run|
    ensures Candidates(c, run[k], p) <= Candidates(c, run[0], p)
    ensures LoadsOf(run[k], p) + |Candidates(c, run[k], p)| <= LoadsOf(run[0], p) + |Candidates(c, run[0], p)|
  {
    if k > 0 {
      LoadsStillToCome(c, run, k - 1, p);
      assert Step(c, run[k - 1], run[k]);
      AnyStepLoads(c, run[k - 1], run[k], p);
    }
  }

  lemma AnyStepLoads(c: Config, st: State, st': State, p: Text)
    requires Step(c, st, st')
    ensures Candidates(c, st', p) <= Candidates(c, st, p)
    ensures LoadsOf(st', p) + |Candidates(c, st', p)| <= LoadsOf(st, p) + |Candidates(c, st, p)|
  {
    var w, l :| CanStep(c, st, w, l) && st' == Next(c, st, w, l);
    StepLoads(c, st, w, l, p);
  }

  ghost predicate CanBeLoadedAgain(c: Config, st: State, p: Text) {
    exists run :: IsExecution(c, run) && run[0] == st && LoadsOf(run[|run| - 1], p) > LoadsOf(st, p)
  }

  /** Another load of p is possible exactly when some call for it stands between its
      look-up and sf.Do, or has not looked yet while p is not in the map, be it that p
      was never loaded or that its load failed or is under way. (The function given to
      sf.Do does not look into the map again.) */
  lemma LoadedAgainIff(c: Config, st: State, p: Text)
    requires Inv(c, st)
    ensures CanBeLoadedAgain(c, st, p) <==>
      exists w: nat :: MayLoad(c, st, p, w)
  {
    if CanBeLoadedAgain(c, st, p) {
      var run :| IsExecution(c, run) && run[0] == st && LoadsOf(run[|run| - 1], p) > LoadsOf(st, p);
      LoadsStillToCome(c, run, |run| - 1, p);
      assert Candidates(c, st, p) != {};
      var w :| w in Candidates(c, st, p);
      assert MayLoad(c, st, p, w);
    }
    if w: nat :| MayLoad(c, st, p, w) {
      CandidateCanLoad(c, st, p, w);
    }
  }

  lemma CandidateCanLoad(c: Config, st: State, p: Text, w: nat)
    requires Inv(c, st) && MayLoad(c, st, p, w)
    ensures CanBeLoadedAgain(c, st, p)
  {
    if st.pcs[w].Missed? {
      MissedCallCanLoad(c, st, p, w);
    } else {
      assert CanStep(c, st, w, Lookup);
      var looked := Next(c, st, w, Lookup);
      StepInv(c, st, w, Lookup);
      MissedCallCanLoad(c, looked, p, w);
      var run :| IsExecution(c, run) && run[0] == looked && LoadsOf(run[|run| - 1], p) > LoadsOf(looked, p);
      OneStepEarlier(c, st, run);
      assert ([st] + run)[|[st] + run| - 1] == run[|run| - 1] && looked.loads == st.loads;
    }
  }

  lemma OneStepEarlier(c: Config, st: State, run: seq<State>)
    requires IsExecution(c, run) && Step(c, st, run[0])
    ensures IsExecution(c, [st] + run) && ([st] + run)[0] == st
  {
    var longer := [st] + run;
    forall k | 0 <= k < |longer| - 1 ensures Step(c, longer[k], longer[k + 1]) {
      assert k > 0 ==> Step(c, run[k - 1], run[k]);
    }
  }

  predicate HasMissed(c: Config, st: State, p: Text, w: nat) {
    w < |st.pcs| == |c.paths| && c.paths[w] == p && st.pcs[w].Missed?
  }

  lemma MissedCallCanLoad(c: Config, st: State, p: Text, w: nat)
    requires Inv(c, st) && HasMissed(c, st, p, w)
    ensures CanBeLoadedAgain(c, st, p)
  {
    var run := EndFlight(c, st, p, w);
    var last := run[|run| - 1];
    assert CanStep(c, last, w, Enter);
    var again := Next(c, last, w, Enter);
    assert again.loads == last.loads + [p];
    OneStepLonger(c, run, w, Enter);
    var longer := run + [again];
    assert longer[|longer| - 1] == again && longer[0] == st;
    assert LoadsOf(again, p) > LoadsOf(st, p);
  }

  lemma OneStepLonger(c: Config, run: seq<State>, w: nat, l: Label)
    requires IsExecution(c, run) && CanStep(c, run[|run| - 1], w, l)
    ensures IsExecution(c, run + [Next(c, run[|run| - 1], w, l)])
  {
    var longer := run + [Next(c, run[|run| - 1], w, l)];
    forall k | 0 <= k < |longer| - 1 ensures Step(c, longer[k], longer[k + 1]) {
      if k == |run| - 1 {
        assert CanStep(c, longer[k], w, l);
      } else {
        assert Step(c, run[k], run[k + 1]);
      }
    }
  }

  /** Some execution ends the flight for p, if there is one, without moving w. */
  lemma EndFlight(c: Config, st: State, p: Text, w: nat) returns (run: seq<State>)
    requires Inv(c, st) && HasMissed(c, st, p, w)
    ensures IsExecution(c, run) && run[0] == st
    ensures var last := run[|run| - 1];
      Inv(c, last) && p !in last.inflight && HasMissed(c, last, p, w) && last.loads == st.loads
    decreases if p in st.inflight then Distance(c, st, p) else 0
  {
    if p !in st.inflight {
      run := [st];
    } else {
      var v, l := FlightMoves(c, st, p, w);
      var st' := Next(c, st, v, l);
      assert Step(c, st, st');
      var rest := EndFlight(c, st', p, w);
      run := [st] + rest;
      assert forall k :: 1 <= k < |run| ==> run[k] == rest[k - 1];
    }
  }

  /** The caller that leads p's flight can bring it nearer to its end. */
  lemma FlightMoves(c: Config, st: State, p: Text, w: nat) returns (v: nat, l: Label)
    requires Inv(c, st) && p in st.inflight && HasMissed(c, st, p, w)
    ensures CanStep(c, st, v, l)
    ensures var st' := Next(c, st, v, l);
      && Inv(c, st') && HasMissed(c, st', p, w) && st'.loads == st.loads
      && (p in st'.inflight ==> Distance(c, st', p) < Distance(c, st, p))
  {
    var f := st.inflight[p];
    assert FlightInv(c, st, f);
    v := st.flights[f].leader;
    assert CallerInv(c, st, v) && v != w;
    l := LeaderStep(c, st, v);
    StepInv(c, st, v, l);
  }

  /** Steps the leader of p's flight still has to take. */
  ghost function Distance(c: Config, st: State, p: Text): nat
    requires Inv(c, st) && p in st.inflight
  {
    assert FlightInv(c, st, st.inflight[p]);
    match st.pcs[st.flights[st.inflight[p]].leader]
    case Loading(_) => 3
    case Loaded(_) => 2
    case _ => 1
  }

  /** "Only once" is more than the code gives: two callers, both loads succeed. */
  lemma TwoLoads(load: Text -> Text, p: Text) returns (c: Config, run: seq<State>)
    ensures c.load == load && IsRun(c, run)
    ensures var end := run[|run| - 1];
      && end.pcs == [Done(Content(load(p))), Done(Content(load(p)))]
      && end.loads == [p, p]
  {
    c := Config([p, p], load);
    var script := [(0, Lookup), (1, Lookup), (0, Enter), (0, LoadOk), (0, Store), (0, End),
                   (1, Enter), (1, LoadOk), (1, Store), (1, End)];
    run := [Init(c)];
    for i := 0 to |script|
      invariant |run| == i + 1 && IsRun(c, run)
      invariant var st := run[i];
        st.pcs == (match i
          case 0 => [Idle, Idle]
          case 1 => [Missed, Idle]
          case 2 => [Missed, Missed]
          case 3 => [Loading(0), Missed]
          case 4 => [Loaded(0), Missed]
          case 5 => [Stored(0), Missed]
          case 6 => [Done(Content(load(p))), Missed]
          case 7 => [Done(Content(load(p))), Loading(1)]
          case 8 => [Done(Content(load(p))), Loaded(1)]
          case 9 => [Done(Content(load(p))), Stored(1)]
          case _ => [Done(Content(load(p))), Done(Content(load(p)))])
      invariant var st := run[i];
        && (p in st.cache <==> i >= 5) && (p in st.inflight <==> 3 <= i < 6 || 7 <= i < 10)
        && |st.flights| == (if i < 3 then 0 else if i < 7 then 1 else 2)
        && st.loads == (if i < 3 then [] else if i < 7 then [p] else [p, p])
    {
      var (w, l) := script[i];
      var next := Next(c, run[i], w, l);
      OneStepLonger(c, run, w, l);
      run := run + [next];
    }
  }
}
