/** Parts of the apply command: the checks that shrink the node list in place, and
    the choice of the node to bootstrap. */
module Apply {
  import opened Common
  import opened NodePool
  import NodeOrder

  /** An element of a slice of pointers. */
  datatype Slot = Nil | At(info: Node)

  class Options {
    const dryRun: bool
    const skipProblematicNodes: bool
    const allowNotReady: bool
    var skipPostApplyChecks: bool

    constructor (dryRun: bool, skipProblematicNodes: bool, allowNotReady: bool, skipPostApplyChecks: bool)
      ensures this.dryRun == dryRun && this.skipProblematicNodes == skipProblematicNodes
      ensures this.allowNotReady == allowNotReady && this.skipPostApplyChecks == skipPostApplyChecks
    {
      this.dryRun := dryRun;
      this.skipProblematicNodes := skipProblematicNodes;
      this.allowNotReady := allowNotReady;
      this.skipPostApplyChecks := skipPostApplyChecks;
    }
  }

  predicate Healthy(x: Node, allowNotReady: bool) {
    !x.broken && (allowNotReady || x.ready) && x.stage != OtherStage
  }

  function Keeps(allowNotReady: bool): Slot -> bool {
    (s: Slot) => s.At? && Healthy(s.info, allowNotReady)
  }

  function KeepsMaintenance(allowNotReady: bool): Slot -> bool {
    (s: Slot) => s.At? && Healthy(s.info, allowNotReady) && s.info.stage == Maintenance
  }

  /** slices.DeleteFunc with the pre-flight closure: the kept nodes move to the front in
      order, the tail is cleared, and every kept maintenance node is counted once. */
  method DeleteUnhealthy(nodes: array<Slot>, allowNotReady: bool) returns (kept: nat, maintenance: nat)
    requires forall k :: 0 <= k < nodes.Length ==> nodes[k].At?
    modifies nodes
    ensures kept <= nodes.Length
    ensures nodes[..kept] == Filter(old(nodes[..]), Keeps(allowNotReady))
    ensures forall k :: kept <= k < nodes.Length ==> nodes[k] == Nil
    ensures maintenance == |Filter(old(nodes[..]), KeepsMaintenance(allowNotReady))|
  {
    ghost var was := nodes[..];
    kept, maintenance := 0, 0;
    var j := 0;
    while j < nodes.Length
      invariant kept <= j <= nodes.Length
      invariant nodes[..kept] == Filter(was[..j], Keeps(allowNotReady))
      invariant forall k :: j <= k < nodes.Length ==> nodes[k] == was[k]
      invariant maintenance == |Filter(was[..j], KeepsMaintenance(allowNotReady))|
    {
      var v := nodes[j];
      assert was[..j + 1] == was[..j] + [v];
      FilterSnoc(was[..j], v, Keeps(allowNotReady));
      FilterSnoc(was[..j], v, KeepsMaintenance(allowNotReady));
      var delete := false;
      if v.info.broken {
        delete := true;
      } else if !allowNotReady && !v.info.ready {
        delete := true;
      } else if v.info.stage !in [Running, Maintenance, Booting] {
        delete := true;
      } else if v.info.stage == Maintenance {
        maintenance := maintenance + 1;
      }
      if !delete {
        nodes[kept] := v;
        kept := kept + 1;
      }
      j := j + 1;
    }
    assert was[..nodes.Length] == was;
    forall k | kept <= k < nodes.Length { nodes[k] := Nil; }
  }

  /** runPreflightChecks; None is its error, otherwise the nodes left are nodes[..n]. */
  method RunPreflightChecks(nodes: array<Slot>, opts: Options) returns (n: Option<nat>)
    requires forall k :: 0 <= k < nodes.Length ==> nodes[k].At?
    modifies nodes, opts
    ensures var healthy := Filter(old(nodes[..]), Keeps(opts.allowNotReady));
      && (n.Some? <==> healthy != [] && (opts.skipProblematicNodes || |healthy| == nodes.Length))
      && (n.Some? ==> n.value <= nodes.Length && nodes[..n.value] == healthy)
      && opts.skipPostApplyChecks == (old(opts.skipPostApplyChecks) || (n.Some? && AllInMaintenance(healthy)))
  {
    var kept, maintenance := DeleteUnhealthy(nodes, opts.allowNotReady);
    MaintenanceCount(old(nodes[..]), opts.allowNotReady);
    if kept == 0 { return None; }
    if kept != nodes.Length && !opts.skipProblematicNodes { return None; }
    if maintenance == kept { opts.skipPostApplyChecks := true; }
    return Some(kept);
  }

  ghost predicate AllInMaintenance(s: seq<Slot>) {
    forall k :: 0 <= k < |s| ==> s[k].At? && s[k].info.stage == Maintenance
  }

  /** The counter reaches the number of kept nodes exactly when all of them are in maintenance. */
  lemma {:induction false} MaintenanceCount(s: seq<Slot>, allowNotReady: bool)
    ensures |Filter(s, KeepsMaintenance(allowNotReady))| <= |Filter(s, Keeps(allowNotReady))|
    ensures |Filter(s, KeepsMaintenance(allowNotReady))| == |Filter(s, Keeps(allowNotReady))| <==>
      AllInMaintenance(Filter(s, Keeps(allowNotReady)))
  {
    if s != [] {
      MaintenanceCount(s[1..], allowNotReady);
      AllInMaintenanceCons(s[0], Filter(s[1..], Keeps(allowNotReady)));
    }
  }

  lemma AllInMaintenanceCons(x: Slot, rest: seq<Slot>)
    ensures AllInMaintenance([x] + rest) <==> x.At? && x.info.stage == Maintenance && AllInMaintenance(rest)
    ensures AllInMaintenance([] + rest) <==> AllInMaintenance(rest)
  {
    assert [] + rest == rest;
    assert ([x] + rest)[0] == x;
    assert forall k :: 0 <= k < |rest| ==> ([x] + rest)[k + 1] == rest[k];
  }

  // ---------------------------------------------------------------- bootstrap

  /** The reply to a bootstrap request. One that is reported as failed may still have
      taken effect. */
  datatype RequestReply = Accepted | Rejected(took: bool)

  predicate TookEffect(r: RequestReply) { r.Accepted? || r.took }

  /** How one attempt to bootstrap goes: what the node answers, or where it fails. */
  datatype Attempt =
    | NoClient
    | NoState
    | NotRunning(reply: RequestReply)     // "Preparing" or "Waiting", and the reply to the request
    | RunningEtcd(members: seq<nat>)      // "Running", and the member count in each reply message
    | OtherState

  datatype Tried = Bootstrapped(already: bool) | Retry

  predicate Decides(a: Attempt) {
    (a.NotRunning? && a.reply.Accepted?) || (a.RunningEtcd? && exists k :: 0 <= k < |a.members| && a.members[k] > 0)
  }

  /** getEtcdMemberCount: the first message that lists a member. */
  method MemberCount(members: seq<nat>) returns (count: nat)
    ensures count > 0 <==> exists k :: 0 <= k < |members| && members[k] > 0
    ensures count > 0 ==>
      exists k :: 0 <= k < |members| && count == members[k] && forall j :: 0 <= j < k ==> members[j] == 0
  {
    for k := 0 to |members|
      invariant forall j :: 0 <= j < k ==> members[j] == 0
    {
      if members[k] > 0 { return members[k]; }
    }
    return 0;
  }

  /** tryBootstrap: a request is sent only while etcd is not running; sent is its reply. */
  method TryBootstrap(a: Attempt) returns (r: Tried, sent: Option<RequestReply>)
    ensures sent == if a.NotRunning? then Some(a.reply) else None
    ensures r.Bootstrapped? <==> Decides(a)
    ensures r.Bootstrapped? <==>
      (a.NotRunning? && a.reply.Accepted?) || (a.RunningEtcd? && exists k :: 0 <= k < |a.members| && a.members[k] > 0)
    ensures r.Bootstrapped? ==> r.already == a.RunningEtcd?
  {
    sent := None;
    match a {
      case NoClient => return Retry, sent;
      case NoState => return Retry, sent;
      case NotRunning(reply) =>
        sent := Some(reply);
        if !reply.Accepted? { return Retry, sent; }
        return Bootstrapped(false), sent;
      case RunningEtcd(members) =>
        var count := MemberCount(members);
        if count > 0 { return Bootstrapped(true), sent; }
      case OtherState =>
    }
    return Retry, sent;
  }

  datatype BootstrapResult = NotAsked | Success(already: bool) | TimedOut

  /** A request sent, and the reply to it. */
  datatype Request = Request(node: Node, reply: RequestReply)

  function BootstrapTarget(nodes: seq<Node>): Option<Node> {
    if |nodes| == 0 || nodes[0].config.role != NodeOrder.ControlPlane then None else Some(nodes[0])
  }

  function RequestIn(target: Node, a: Attempt): seq<Request> {
    if a.NotRunning? then [Request(target, a.reply)] else []
  }

  /** The requests the attempts lead to: one in each that finds etcd not running, up to
      the first that decides. */
  function Requests(target: Node, attempts: seq<Attempt>): seq<Request> {
    if attempts == [] then []
    else
      RequestIn(target, attempts[0]) +
      (if Decides(attempts[0]) then [] else Requests(target, attempts[1..]))
  }

  ghost predicate FirstDecision(attempts: seq<Attempt>, k: int) {
    0 <= k < |attempts| && Decides(attempts[k]) && forall j :: 0 <= j < k ==> !Decides(attempts[j])
  }

  /** bootstrap: only the first node is asked, and only if it is a control plane. The
      attempts are those made before the time runs out; the first that decides ends
      it. */
  method Bootstrap(nodes: seq<Node>, attempts: seq<Attempt>) returns (r: BootstrapResult, requests: seq<Request>)
    ensures r == NotAsked <==> BootstrapTarget(nodes).None?
    ensures requests == if r == NotAsked then [] else Requests(nodes[0], attempts)
    ensures r.Success? <==> BootstrapTarget(nodes).Some? && exists k :: FirstDecision(attempts, k)
    ensures r.Success? ==> exists k :: FirstDecision(attempts, k) && r.already == attempts[k].RunningEtcd?
  {
    requests := [];
    if |nodes| == 0 || nodes[0].config.role != NodeOrder.ControlPlane { return NotAsked, requests; }
    for k := 0 to |attempts|
      invariant requests + Requests(nodes[0], attempts[k..]) == Requests(nodes[0], attempts)
      invariant forall j :: 0 <= j < k ==> !Decides(attempts[j])
    {
      var tried, sent := TryBootstrap(attempts[k]);
      OneMoreAttempt(requests, nodes[0], attempts, k);
      if sent.Some? { requests := requests + [Request(nodes[0], sent.value)]; }
      if tried.Bootstrapped? {
        assert FirstDecision(attempts, k);
        return Success(tried.already), requests;
      }
    }
    return TimedOut, requests;
  }

  lemma OneMoreAttempt(requests: seq<Request>, target: Node, attempts: seq<Attempt>, k: nat)
    requires k < |attempts|
    ensures requests + Requests(target, attempts[k..]) ==
      requests + RequestIn(target, attempts[k]) +
      (if Decides(attempts[k]) then [] else Requests(target, attempts[k + 1..]))
    ensures requests + [] == requests
  {
    assert attempts[k..][1..] == attempts[k + 1..];
  }

  /** A request with a given reply is sent exactly when some attempt that is made sends
      it: one that finds etcd not running, with no decision before it. */
  lemma {:induction false} SentIff(target: Node, attempts: seq<Attempt>, reply: RequestReply)
    ensures Request(target, reply) in Requests(target, attempts) <==>
      exists k :: SendsAt(attempts, reply, k)
  {
    if attempts != [] {
      var rest := attempts[1..];
      SentIff(target, rest, reply);
      if SendsAt(attempts, reply, 0) {
        assert Request(target, reply) in RequestIn(target, attempts[0]);
      }
      if k :| SendsAt(rest, reply, k) && !Decides(attempts[0]) {
        assert forall j :: 1 <= j < k + 1 ==> attempts[j] == rest[j - 1];
        assert SendsAt(attempts, reply, k + 1);
      }
      if k :| SendsAt(attempts, reply, k) && k > 0 {
        assert forall j :: 0 <= j < k - 1 ==> rest[j] == attempts[j + 1];
        assert SendsAt(rest, reply, k - 1);
      }
    }
  }

  ghost predicate SendsAt(attempts: seq<Attempt>, reply: RequestReply, k: int) {
    && 0 <= k < |attempts| && attempts[k] == NotRunning(reply)
    && forall j :: 0 <= j < k ==> !Decides(attempts[j])
  }

  ghost predicate EndsAccepted(sent: seq<Request>) {
    sent != [] && sent[|sent| - 1].reply.Accepted?
  }

  ghost predicate OnlyLastAccepted(target: Node, sent: seq<Request>) {
    forall i :: 0 <= i < |sent| ==> sent[i].node == target && (sent[i].reply.Accepted? ==> i == |sent| - 1)
  }

  /** All requests go to the target, and an accepted one is the last one sent; so at
      most one is ever accepted. */
  lemma {:induction false} OnlyTheLastIsAccepted(target: Node, attempts: seq<Attempt>)
    ensures OnlyLastAccepted(target, Requests(target, attempts))
  {
    if attempts != [] && !Decides(attempts[0]) {
      var sent, later := Requests(target, attempts), Requests(target, attempts[1..]);
      OnlyTheLastIsAccepted(target, attempts[1..]);
      if attempts[0].NotRunning? {
        assert sent == [Request(target, attempts[0].reply)] + later;
        assert forall i :: 0 < i < |sent| ==> sent[i] == later[i - 1];
      } else {
        assert sent == later;
      }
    }
  }

  /** One is accepted exactly when the attempt that decides is a request. */
  lemma {:induction false} AcceptedIff(target: Node, attempts: seq<Attempt>)
    ensures EndsAccepted(Requests(target, attempts)) <==>
      exists k :: FirstDecision(attempts, k) && attempts[k].NotRunning?
  {
    if attempts != [] {
      var rest := attempts[1..];
      if Decides(attempts[0]) {
        assert FirstDecision(attempts, 0);
      } else {
        AcceptedIff(target, rest);
        AcceptedLater(target, attempts);
        if k :| FirstDecision(rest, k) && rest[k].NotRunning? {
          assert FirstDecision(attempts, k + 1);
        }
        if k :| FirstDecision(attempts, k) && attempts[k].NotRunning? {
          assert FirstDecision(rest, k - 1) && rest[k - 1].NotRunning?;
        }
      }
    }
  }

  lemma AcceptedLater(target: Node, attempts: seq<Attempt>)
    requires attempts != [] && !Decides(attempts[0])
    ensures EndsAccepted(Requests(target, attempts)) <==> EndsAccepted(Requests(target, attempts[1..]))
  {
    var later := Requests(target, attempts[1..]);
    assert Requests(target, attempts) == RequestIn(target, attempts[0]) + later;
  }

  /** Attempt k is made and its request takes effect. */
  ghost predicate TakesEffectAt(attempts: seq<Attempt>, k: int) {
    && 0 <= k < |attempts| && attempts[k].NotRunning? && TookEffect(attempts[k].reply)
    && forall j :: 0 <= j < k ==> !Decides(attempts[j])
  }

  ghost predicate SomeTookEffect(sent: seq<Request>) {
    exists i :: 0 <= i < |sent| && TookEffect(sent[i].reply)
  }

  ghost predicate TwoTookEffect(sent: seq<Request>) {
    exists i, j :: 0 <= i < j < |sent| && TookEffect(sent[i].reply) && TookEffect(sent[j].reply)
  }

  lemma TookEffectCons(x: Request, rest: seq<Request>)
    ensures SomeTookEffect([x] + rest) <==> TookEffect(x.reply) || SomeTookEffect(rest)
    ensures TwoTookEffect([x] + rest) <==> TwoTookEffect(rest) || (TookEffect(x.reply) && SomeTookEffect(rest))
  {
    var all := [x] + rest;
    assert all[0] == x && forall i :: 0 <= i < |rest| ==> all[i + 1] == rest[i];
    assert forall i :: 0 < i < |all| ==> all[i] == rest[i - 1];
  }

  lemma {:induction false} SomeTakeEffectIff(target: Node, attempts: seq<Attempt>)
    ensures SomeTookEffect(Requests(target, attempts)) <==> exists k :: TakesEffectAt(attempts, k)
  {
    if attempts != [] {
      var rest := attempts[1..];
      SomeTakeEffectIff(target, rest);
      SplitFirst(target, attempts);
      if !Decides(attempts[0]) { LaterAttempts(attempts); }
      if k :| TakesEffectAt(rest, k) && !Decides(attempts[0]) {
        assert TakesEffectAt(attempts, k + 1);
      }
      assert TakesEffectAt(attempts, 0) <==> attempts[0].NotRunning? && TookEffect(attempts[0].reply);
    }
  }

  lemma LaterAttempts(attempts: seq<Attempt>)
    requires attempts != [] && !Decides(attempts[0])
    ensures forall k :: k >= 1 ==> (TakesEffectAt(attempts, k) <==> TakesEffectAt(attempts[1..], k - 1))
  {
    var rest := attempts[1..];
    forall k | k >= 1 && TakesEffectAt(rest, k - 1) ensures TakesEffectAt(attempts, k) {
      assert forall j :: 1 <= j < k ==> attempts[j] == rest[j - 1];
    }
    forall k | k >= 1 && TakesEffectAt(attempts, k) ensures TakesEffectAt(rest, k - 1) {
      assert forall j :: 0 <= j < k - 1 ==> rest[j] == attempts[j + 1];
    }
  }

  lemma SplitFirst(target: Node, attempts: seq<Attempt>)
    requires attempts != []
    ensures var sent := Requests(target, attempts);
      var later := if Decides(attempts[0]) then [] else Requests(target, attempts[1..]);
      var now := attempts[0].NotRunning? && TookEffect(attempts[0].reply);
      && (SomeTookEffect(sent) <==> now || SomeTookEffect(later))
      && (TwoTookEffect(sent) <==> TwoTookEffect(later) || (now && SomeTookEffect(later)))
  {
    var sent := Requests(target, attempts);
    var later := if Decides(attempts[0]) then [] else Requests(target, attempts[1..]);
    if attempts[0].NotRunning? {
      assert sent == [Request(target, attempts[0].reply)] + later;
      TookEffectCons(Request(target, attempts[0].reply), later);
    } else {
      assert sent == later;
    }
  }

  /** Bootstrapping may take effect twice: exactly when, before any attempt decides, a
      request takes effect but is reported as failed, and a later attempt still finds
      etcd not running and sends one that takes effect too. */
  lemma {:induction false} TakesEffectTwiceIff(target: Node, attempts: seq<Attempt>)
    ensures TwoTookEffect(Requests(target, attempts)) <==>
      exists j, k :: j < k && TakesEffectAt(attempts, j) && TakesEffectAt(attempts, k)
  {
    if attempts != [] {
      var rest := attempts[1..];
      TakesEffectTwiceIff(target, rest);
      SomeTakeEffectIff(target, rest);
      SplitFirst(target, attempts);
      if !Decides(attempts[0]) { LaterAttempts(attempts); }
      if j, k :| j < k && TakesEffectAt(rest, j) && TakesEffectAt(rest, k) && !Decides(attempts[0]) {
        assert TakesEffectAt(attempts, j + 1) && TakesEffectAt(attempts, k + 1);
      }
      if k :| TakesEffectAt(rest, k) && TakesEffectAt(attempts, 0) && !Decides(attempts[0]) {
        assert TakesEffectAt(attempts, k + 1);
      }
    }
  }

  /** It can happen: a lost reply, then another request. */
  lemma LostReplyTakesEffectTwice(target: Node)
    ensures Requests(target, [NotRunning(Rejected(true)), NotRunning(Accepted)]) ==
      [Request(target, Rejected(true)), Request(target, Accepted)]
    ensures TwoTookEffect([Request(target, Rejected(true)), Request(target, Accepted)])
  {
    var sent := [Request(target, Rejected(true)), Request(target, Accepted)];
    assert TookEffect(sent[0].reply) && TookEffect(sent[1].reply);
    assert [NotRunning(Rejected(true)), NotRunning(Accepted)][1..] == [NotRunning(Accepted)];
    assert Requests(target, [NotRunning(Accepted)]) == [Request(target, Accepted)];
  }

  // ---------------------------------------------------------------- from configuration to bootstrap

  function IsHealthy(allowNotReady: bool): Node -> bool {
    (x: Node) => Healthy(x, allowNotReady)
  }

  /** The nodes that reach bootstrap: sorted, selected by name, gathered, checked. */
  function Remaining(config: seq<NodeOrder.Node>, matches: Text -> bool, gather: Findings,
                     allowNotReady: bool): seq<Node>
  {
    Filter(Gathered(Filter(NodeOrder.StableSort(config), Named(matches)), gather), IsHealthy(allowNotReady))
  }

  predicate Eligible(n: NodeOrder.Node, matches: Text -> bool, gather: Findings, allowNotReady: bool) {
    n.role == NodeOrder.ControlPlane && matches(n.host) && Healthy(gather(n), allowNotReady)
  }

  lemma RemainingIsOrdered(config: seq<NodeOrder.Node>, matches: Text -> bool, gather: Findings, allowNotReady: bool)
    requires KeepsConfig(gather)
    ensures OrderedBy(Remaining(config, matches, gather, allowNotReady), NotAfter)
  {
    NodeOrder.StableSortIsOne(config);
    GatheredInOrder(NodeOrder.StableSort(config), matches, gather);
    var nodes := Gathered(Filter(NodeOrder.StableSort(config), Named(matches)), gather);
    FilterKeepsOrder(nodes, IsHealthy(allowNotReady), NotAfter);
  }

  lemma RemainingMember(config: seq<NodeOrder.Node>, matches: Text -> bool, gather: Findings, allowNotReady: bool,
                        x: Node)
    requires KeepsConfig(gather)
    ensures x in Remaining(config, matches, gather, allowNotReady) <==>
      x.config in config && matches(x.config.host) && x == gather(x.config) && Healthy(x, allowNotReady)
  {
    var sorted := NodeOrder.StableSort(config);
    var kept := Filter(sorted, Named(matches));
    var nodes := Gathered(kept, gather);
    NodeOrder.StableSortIsOne(config);
    NodeOrder.SameMembers(config, sorted);
    FilterMembers(sorted, Named(matches));
    FilterMembers(nodes, IsHealthy(allowNotReady));
    if x in nodes {
      var k :| 0 <= k < |nodes| && nodes[k] == x;
      assert kept[k] in kept;
    }
    if x.config in kept && x == gather(x.config) {
      var k :| 0 <= k < |kept| && kept[k] == x.config;
      assert nodes[k] == x;
    }
  }

  /** bootstrap finds its target exactly when any healthy control plane matches the
      filter. */
  lemma BootstrapNeedsAControlPlane(config: seq<NodeOrder.Node>, matches: Text -> bool, gather: Findings,
                                    allowNotReady: bool)
    requires KeepsConfig(gather)
    ensures BootstrapTarget(Remaining(config, matches, gather, allowNotReady)).Some? <==>
      exists n :: n in config && Eligible(n, matches, gather, allowNotReady)
  {
    var rest := Remaining(config, matches, gather, allowNotReady);
    if rest != [] {
      RemainingMember(config, matches, gather, allowNotReady, rest[0]);
      assert rest[0].config in config;
      assert rest[0].config.role == NodeOrder.ControlPlane ==> Eligible(rest[0].config, matches, gather, allowNotReady);
    }
    if n :| n in config && Eligible(n, matches, gather, allowNotReady) {
      BootstrapTargetIsFirst(config, matches, gather, allowNotReady, n);
    }
  }

  function Kept(matches: Text -> bool, gather: Findings, allowNotReady: bool): NodeOrder.Node -> bool {
    (n: NodeOrder.Node) => matches(n.host) && Healthy(gather(n), allowNotReady)
  }

  /** Selecting, gathering and checking is one selection from the sorted configuration. */
  lemma {:induction false} OneSelection(s: seq<NodeOrder.Node>, matches: Text -> bool, gather: Findings,
                                        allowNotReady: bool)
    ensures Filter(Gathered(Filter(s, Named(matches)), gather), IsHealthy(allowNotReady)) ==
      Gathered(Filter(s, Kept(matches, gather, allowNotReady)), gather)
  {
    if s != [] {
      OneSelection(s[1..], matches, gather, allowNotReady);
      GatheredCons(s[0], Filter(s[1..], Named(matches)), gather);
      GatheredCons(s[0], Filter(s[1..], Kept(matches, gather, allowNotReady)), gather);
    }
  }

  lemma GatheredCons(n: NodeOrder.Node, rest: seq<NodeOrder.Node>, gather: Findings)
    ensures Gathered([n] + rest, gather) == [gather(n)] + Gathered(rest, gather)
    ensures Gathered([] + rest, gather) == Gathered(rest, gather)
    ensures Gathered([n] + rest, gather)[1..] == Gathered(rest, gather)
  {
    assert [] + rest == rest;
  }

  /** Position k holds the first eligible node of the sorted configuration. */
  ghost predicate FirstEligible(sorted: seq<NodeOrder.Node>, matches: Text -> bool, gather: Findings,
                                allowNotReady: bool, k: int) {
    && 0 <= k < |sorted| && Eligible(sorted[k], matches, gather, allowNotReady)
    && forall j :: 0 <= j < k ==> !Eligible(sorted[j], matches, gather, allowNotReady)
  }

  /** The target is the first eligible node in configuration order, equal hosts
      included; so no eligible control plane has a smaller host. */
  lemma BootstrapTargetIsFirst(config: seq<NodeOrder.Node>, matches: Text -> bool, gather: Findings,
                               allowNotReady: bool, n: NodeOrder.Node)
    requires KeepsConfig(gather) && n in config && Eligible(n, matches, gather, allowNotReady)
    ensures var target := BootstrapTarget(Remaining(config, matches, gather, allowNotReady));
      && target.Some? && target.value.config in config
      && Eligible(target.value.config, matches, gather, allowNotReady)
      && NodeOrder.CompareText(target.value.config.host, n.host) <= 0
    ensures var target := BootstrapTarget(Remaining(config, matches, gather, allowNotReady));
      exists k :: FirstEligible(NodeOrder.StableSort(config), matches, gather, allowNotReady, k) &&
        target == Some(gather(NodeOrder.StableSort(config)[k]))
  {
    var rest, sorted := Remaining(config, matches, gather, allowNotReady), NodeOrder.StableSort(config);
    RemainingMember(config, matches, gather, allowNotReady, gather(n));
    RemainingMember(config, matches, gather, allowNotReady, rest[0]);
    RemainingIsOrdered(config, matches, gather, allowNotReady);
    var k :| 0 <= k < |rest| && rest[k] == gather(n);
    assert k > 0 ==> NotAfter(rest[0], rest[k]);
    NodeOrder.CompareIsLawful(n, n, n);
    OneSelection(sorted, matches, gather, allowNotReady);
    var at := FilterHead(sorted, Kept(matches, gather, allowNotReady));
    assert FirstEligible(sorted, matches, gather, allowNotReady, at);
  }
}
