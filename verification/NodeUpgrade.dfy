/** The upgrade of one node: the remote calls in order, their effects on the node,
    and what every failure leaves behind. Remote replies are unconstrained. */
module NodeUpgrade {
  import opened Common

  datatype Options = Options(drain: bool, deleteIfEvictionFails: bool)

  /** The status of a failed gRPC call, as far as the code or its comments tell them apart. */
  datatype Status = Unavailable | Canceled | OtherStatus

  /** contextCanceled says whether the error wraps context.Canceled. A call that fails
      may still have taken effect. */
  datatype Reply = Ok | Failed(status: Status, contextCanceled: bool, took: bool)

  /** A failure like any other. */
  function Refused(took: bool): Reply { Failed(OtherStatus, false, took) }

  predicate TookEffect(r: Reply) { r.Ok? || r.took }

  // ---------------------------------------------------------------- response streams

  datatype PullEvent = PullProgress | PullName | PullOther | PullError

  datatype InstallEvent = NoProgress | Message | ExitCode(code: int) | InstallOther | InstallError

  /** The responses up to the end of the stream; None if it could not be opened. */
  type PullStream = Option<seq<PullEvent>>
  type InstallStream = Option<seq<InstallEvent>>

  predicate EndsPull(e: PullEvent) { e.PullName? || e.PullError? }

  predicate EndsInstall(e: InstallEvent) { e.ExitCode? || e.InstallError? }

  ghost predicate FirstTerminal<E>(events: seq<E>, ends: E -> bool, k: nat) {
    k < |events| && ends(events[k]) && forall j :: 0 <= j < k ==> !ends(events[j])
  }

  /** The first decisive response is the image name. */
  ghost predicate PullConfirmed(stream: PullStream) {
    stream.Some? && exists k: nat :: FirstTerminal(stream.value, EndsPull, k) && stream.value[k] == PullName
  }

  /** The first decisive response is exit code 0. */
  ghost predicate InstallSucceeded(stream: InstallStream) {
    stream.Some? && exists k: nat :: FirstTerminal(stream.value, EndsInstall, k) && stream.value[k] == ExitCode(0)
  }

  method PullInstallerImage(stream: PullStream) returns (ok: bool)
    ensures ok <==> PullConfirmed(stream)
  {
    if stream.None? { return false; }
    var events, i := stream.value, 0;
    while true
      invariant 0 <= i <= |events|
      invariant forall j :: 0 <= j < i ==> !EndsPull(events[j])
      decreases |events| - i
    {
      if i == |events| { return false; }
      match events[i] {
        case PullName => assert FirstTerminal(events, EndsPull, i); return true;
        case PullError => assert FirstTerminal(events, EndsPull, i); return false;
        case PullProgress =>
        case PullOther =>
      }
      i := i + 1;
    }
  }

  method RunUpgrade(stream: InstallStream) returns (ok: bool)
    ensures ok <==> InstallSucceeded(stream)
  {
    if stream.None? { return false; }
    var events, i := stream.value, 0;
    while true
      invariant 0 <= i <= |events|
      invariant forall j :: 0 <= j < i ==> !EndsInstall(events[j])
      decreases |events| - i
    {
      if i == |events| { return false; }
      match events[i] {
        case ExitCode(code) =>
          assert FirstTerminal(events, EndsInstall, i);
          return code == 0;
        case InstallError => assert FirstTerminal(events, EndsInstall, i); return false;
        case NoProgress =>
        case Message =>
        case InstallOther =>
      }
      i := i + 1;
    }
  }

  // ---------------------------------------------------------------- the protocol

  datatype Phase =
    | Pending | Connecting | Resolving | Pulling | Installing
    | FetchingDrainClient | Cordoning | Draining | ForceDraining
    | Rebooting | Stabilizing | FetchingUncordonClient | Uncordoning
    | LegacyUpgrading | Finished(ok: bool)

  /** The node as this run has changed it. cordoned and rebooting (from a reboot
      until the node is seen stable) are its condition; the other marks record
      what has been achieved. */
  datatype Marks = Marks(
    pulled: bool, installed: bool, installConfirmed: bool, cordonConfirmed: bool, drained: bool,
    cordoned: bool, rebooting: bool, rebooted: bool, stabilized: bool)

  datatype Node = Node(phase: Phase, marks: Marks)

  const CLEAN: Marks := Marks(false, false, false, false, false, false, false, false, false)

  const UNTOUCHED: Node := Node(Pending, CLEAN)

  /** A reboot may cut off its own reply. */
  predicate RebootAccepted(r: Reply) { r.Ok? || r.status == Unavailable || r.contextCanceled }

  predicate Accepted(phase: Phase, r: Reply) { if phase.Rebooting? then RebootAccepted(r) else r.Ok? }

  /** What the reply to the call made in this phase does to the node. */
  function Effect(phase: Phase, m: Marks, r: Reply): Marks {
    match phase
    case Pulling => m.(pulled := r.Ok?)
    case Installing => m.(installed := TookEffect(r), installConfirmed := r.Ok?)
    case Cordoning => m.(cordoned := TookEffect(r), cordonConfirmed := r.Ok?)
    case Draining => m.(drained := r.Ok?)
    case ForceDraining => m.(drained := r.Ok?)
    case Rebooting => m.(rebooting := TookEffect(r), rebooted := TookEffect(r))
    case LegacyUpgrading => m.(rebooting := TookEffect(r), rebooted := TookEffect(r))
    case Stabilizing => if r.Ok? then m.(rebooting := false, stabilized := true) else m
    case Uncordoning => if TookEffect(r) then m.(cordoned := false) else m
    case _ => m
  }

  function After(opts: Options, modern: bool, phase: Phase, accepted: bool): Phase {
    if phase.Draining? && !accepted && opts.deleteIfEvictionFails then ForceDraining
    else if !accepted && !phase.Pending? then Finished(false)
    else
      match phase
      case Pending => Connecting
      case Connecting => if !modern then LegacyUpgrading else if opts.drain then Resolving else Pulling
      case Resolving => Pulling
      case Pulling => Installing
      case Installing => if opts.drain then FetchingDrainClient else Rebooting
      case FetchingDrainClient => Cordoning
      case Cordoning => Draining
      case Draining => Rebooting
      case ForceDraining => Rebooting
      case Rebooting => Stabilizing
      case LegacyUpgrading => Stabilizing
      case Stabilizing => if modern && opts.drain then FetchingUncordonClient else Finished(true)
      case FetchingUncordonClient => Uncordoning
      case Uncordoning => Finished(true)
      case Finished(ok) => Finished(ok)
  }

  function Next(opts: Options, modern: bool, s: Node, r: Reply): Node {
    Node(After(opts, modern, s.phase, Accepted(s.phase, r)), Effect(s.phase, s.marks, r))
  }

  function Rank(phase: Phase): nat {
    match phase
    case Pending => 13
    case Connecting => 12
    case Resolving => 11
    case Pulling => 10
    case Installing => 9
    case FetchingDrainClient => 8
    case Cordoning => 7
    case Draining => 6
    case ForceDraining => 5
    case Rebooting => 4
    case LegacyUpgrading => 4
    case Stabilizing => 3
    case FetchingUncordonClient => 2
    case Uncordoning => 1
    case Finished(_) => 0
  }

  /** Image pulled and artifacts installed, nothing else. */
  const INSTALLED: Marks := Marks(true, true, true, false, false, false, false, false, false)

  /** Ready for the reboot: when draining, cordoned and drained too. */
  function Readied(d: bool): Marks { Marks(true, true, true, d, d, d, false, false, false) }

  /** Stable again but still cordoned. */
  function Restarted(rebooted: bool): Marks { Readied(true).(rebooted := rebooted, stabilized := true) }

  /** What holds of a node at every point of its upgrade. */
  predicate NodeInv(opts: Options, modern: bool, s: Node) {
    var m, cordonedOnly := s.marks, INSTALLED.(cordonConfirmed := true, cordoned := true);
    match s.phase
    case Pending => m == CLEAN
    case Connecting => m == CLEAN
    case Resolving => m == CLEAN && modern && opts.drain
    case Pulling => m == CLEAN && modern
    case LegacyUpgrading => m == CLEAN && !modern
    case Installing => m == CLEAN.(pulled := true) && modern
    case FetchingDrainClient => m == INSTALLED && modern && opts.drain
    case Cordoning => m == INSTALLED && modern && opts.drain
    case Draining => m == cordonedOnly && modern && opts.drain
    case ForceDraining => m == cordonedOnly && modern && opts.drain
    case Rebooting => m == Readied(opts.drain) && modern
    case Stabilizing =>
      m == (if modern then Readied(opts.drain) else CLEAN).(rebooting := m.rebooted, rebooted := m.rebooted)
    case FetchingUncordonClient => m == Restarted(m.rebooted) && modern && opts.drain
    case Uncordoning => m == Restarted(m.rebooted) && modern && opts.drain
    case Finished(ok) => FinalInv(opts, modern, m, ok)
  }

  predicate FinalInv(opts: Options, modern: bool, m: Marks, ok: bool) {
    && (modern && (m.rebooted || ok) ==>
        m.pulled && m.installConfirmed && (opts.drain ==> m.cordonConfirmed && m.drained))
    && (ok ==> m.stabilized && !m.cordoned)
    && (m.rebooting ==> m.rebooted && !m.stabilized)
    && (m.cordoned ==> modern && opts.drain && m.pulled && m.installConfirmed)
  }

  lemma NextKeepsNodeInv(opts: Options, modern: bool, s: Node, r: Reply)
    requires NodeInv(opts, modern, s) && !s.phase.Finished?
    ensures NodeInv(opts, modern, Next(opts, modern, s, r))
  {
  }

  /** Every call leaves fewer to make. */
  lemma RankFalls(opts: Options, modern: bool, s: Node, r: Reply)
    requires !s.phase.Finished?
    ensures Rank(Next(opts, modern, s, r).phase) < Rank(s.phase)
  {
  }

  /** Whatever the replies: a modern node is rebooted only by the reboot call, and
      then with the pull and the installation confirmed and, when draining, a
      confirmed cordon and a completed drain; and it is made schedulable again only
      once it has been seen stable. */
  lemma RebootAndUncordonAreGuarded(opts: Options, modern: bool, s: Node, r: Reply)
    requires NodeInv(opts, modern, s) && !s.phase.Finished?
    ensures var m, m' := s.marks, Next(opts, modern, s, r).marks;
      && (modern && !m.rebooted && m'.rebooted ==>
          s.phase.Rebooting? && m.pulled && m.installConfirmed && (opts.drain ==> m.cordonConfirmed && m.drained))
      && (m.cordoned && !m'.cordoned ==> s.phase.Uncordoning? && m.stabilized && !m.rebooting)
  {
  }

  // ---------------------------------------------------------------- one whole upgrade

  /** The outcome of every call an upgrade may make. */
  datatype Script = Script(
    connect: Reply, resolve: Reply, pull: PullStream, install: InstallStream, installTook: bool,
    drainClient: Reply, cordon: Reply, drain: Reply, forcedDrain: Reply,
    reboot: Reply, stabilize: Reply, uncordonClient: Reply, uncordon: Reply, legacy: Reply)

  ghost function ReplyTo(script: Script, phase: Phase): Reply {
    match phase
    case Connecting => script.connect
    case Resolving => script.resolve
    case Pulling => if PullConfirmed(script.pull) then Ok else Refused(false)
    case Installing => if InstallSucceeded(script.install) then Ok else Refused(script.installTook)
    case FetchingDrainClient => script.drainClient
    case Cordoning => script.cordon
    case Draining => script.drain
    case ForceDraining => script.forcedDrain
    case Rebooting => script.reboot
    case Stabilizing => script.stabilize
    case FetchingUncordonClient => script.uncordonClient
    case Uncordoning => script.uncordon
    case LegacyUpgrading => script.legacy
    case _ => Ok
  }

  /** The protocol run to its end under a script. */
  ghost function Outcome(opts: Options, modern: bool, script: Script, s: Node): Node
    decreases Rank(s.phase)
  {
    if s.phase.Finished? then s
    else Outcome(opts, modern, script, Next(opts, modern, s, ReplyTo(script, s.phase)))
  }

  lemma Advance(opts: Options, modern: bool, script: Script, s: Node) returns (t: Node)
    requires !s.phase.Finished?
    ensures t == Next(opts, modern, s, ReplyTo(script, s.phase))
    ensures Outcome(opts, modern, script, s) == Outcome(opts, modern, script, t)
  {
    t := Next(opts, modern, s, ReplyTo(script, s.phase));
  }

  ghost predicate InstallPartSucceeds(opts: Options, script: Script) {
    && script.connect.Ok? && (opts.drain ==> script.resolve.Ok?)
    && PullConfirmed(script.pull) && InstallSucceeded(script.install)
  }

  ghost predicate DrainSucceeds(opts: Options, script: Script) {
    script.drainClient.Ok? && script.cordon.Ok? &&
    (script.drain.Ok? || (opts.deleteIfEvictionFails && script.forcedDrain.Ok?))
  }

  /** All that has to succeed before the reboot is called. */
  ghost predicate Ready(opts: Options, script: Script) {
    InstallPartSucceeds(opts, script) && (opts.drain ==> DrainSucceeds(opts, script))
  }

  /** The reply to the reboot is nil, has status Unavailable or wraps context.Canceled,
      and the node then stabilises. */
  ghost predicate ComesBack(script: Script) {
    && (script.reboot.Ok? || script.reboot.status == Unavailable || script.reboot.contextCanceled)
    && script.stabilize.Ok?
  }

  ghost predicate RebootPartSucceeds(opts: Options, script: Script) {
    ComesBack(script) && (opts.drain ==> script.uncordonClient.Ok? && script.uncordon.Ok?)
  }

  ghost predicate Uncordoned(opts: Options, script: Script) {
    && Ready(opts, script) && ComesBack(script)
    && script.uncordonClient.Ok? && (script.uncordon.Ok? || script.uncordon.took)
  }

  // ---------------------------------------------------------------- what an outcome takes

  /** What the replies so far must have been for a modern upgrade to stand at s. */
  ghost predicate Explained(opts: Options, script: Script, s: Node) {
    match s.phase
    case Resolving => script.connect.Ok?
    case Pulling => script.connect.Ok? && (opts.drain ==> script.resolve.Ok?)
    case Installing => script.connect.Ok? && (opts.drain ==> script.resolve.Ok?) && PullConfirmed(script.pull)
    case FetchingDrainClient => InstallPartSucceeds(opts, script)
    case Cordoning => InstallPartSucceeds(opts, script) && script.drainClient.Ok?
    case Draining => InstallPartSucceeds(opts, script) && script.drainClient.Ok? && script.cordon.Ok?
    case ForceDraining =>
      && InstallPartSucceeds(opts, script) && script.drainClient.Ok? && script.cordon.Ok?
      && !script.drain.Ok? && opts.deleteIfEvictionFails
    case Rebooting => Ready(opts, script)
    case Stabilizing => RebootExplained(opts, script, s)
    case FetchingUncordonClient => RebootExplained(opts, script, s) && script.stabilize.Ok?
    case Uncordoning => RebootExplained(opts, script, s) && script.stabilize.Ok? && script.uncordonClient.Ok?
    case Finished(ok) =>
      && (ok <==> Ready(opts, script) && RebootPartSucceeds(opts, script))
      && (s.marks.rebooting <==> LeftRebooting(opts, script))
      && (s.marks.rebooted <==> Rebooted(opts, script))
      && (s.marks.cordoned <==> LeftCordoned(opts, script))
      && (s.marks.stabilized <==> Ready(opts, script) && ComesBack(script))
    case _ => true
  }

  ghost predicate RebootExplained(opts: Options, script: Script, s: Node) {
    Ready(opts, script) && RebootAccepted(script.reboot) && (s.marks.rebooted <==> TookEffect(script.reboot))
  }

  ghost predicate LeftCordoned(opts: Options, script: Script) {
    && opts.drain && InstallPartSucceeds(opts, script) && script.drainClient.Ok?
    && (script.cordon.Ok? || script.cordon.took) && !Uncordoned(opts, script)
  }

  ghost predicate Rebooted(opts: Options, script: Script) {
    Ready(opts, script) && (script.reboot.Ok? || script.reboot.took)
  }

  ghost predicate LeftRebooting(opts: Options, script: Script) { Rebooted(opts, script) && !ComesBack(script) }

  lemma NextIsExplained(opts: Options, script: Script, s: Node)
    requires NodeInv(opts, true, s) && Explained(opts, script, s) && !s.phase.Finished?
    ensures Explained(opts, script, Next(opts, true, s, ReplyTo(script, s.phase)))
  {
  }

  lemma {:induction false} OutcomeIsExplained(opts: Options, script: Script, s: Node)
    requires NodeInv(opts, true, s) && Explained(opts, script, s)
    ensures var t := Outcome(opts, true, script, s);
      t.phase.Finished? && NodeInv(opts, true, t) && Explained(opts, script, t)
    decreases Rank(s.phase)
  {
    if !s.phase.Finished? {
      var r := ReplyTo(script, s.phase);
      NextKeepsNodeInv(opts, true, s, r);
      NextIsExplained(opts, script, s);
      RankFalls(opts, true, s, r);
      OutcomeIsExplained(opts, script, Next(opts, true, s, r));
    }
  }

  /** A modern upgrade reboots the node exactly when it connects, resolves the name if
      it must, the pull stream first decides for the image, the install stream first
      decides for exit code 0, the drain (if any) succeeds, and the reboot call takes
      effect. It returns nil exactly when, besides, the reply to the reboot is nil, has
      status Unavailable or wraps context.Canceled, the node stabilises, and the uncordon
      (if any) succeeds. Otherwise it may leave the node rebooting or cordoned: exactly
      when those calls took effect and the way back was not completed. */
  lemma OutcomeExactly(opts: Options, script: Script)
    ensures var end := Outcome(opts, true, script, UNTOUCHED);
      && end.phase == Finished(Ready(opts, script) && RebootPartSucceeds(opts, script))
      && (end.marks.rebooted <==> Rebooted(opts, script))
      && (end.marks.stabilized <==> Ready(opts, script) && ComesBack(script))
      && (end.marks.rebooting <==> LeftRebooting(opts, script))
      && (end.marks.cordoned <==> LeftCordoned(opts, script))
  {
    OutcomeIsExplained(opts, script, UNTOUCHED);
  }

  /** After a failed reply to the reboot, by its error: status Unavailable and a wrapped
      context.Canceled let the upgrade go on, nothing else does. */
  lemma AfterFailedReboot(opts: Options, script: Script)
    requires Ready(opts, script) && script.reboot.Failed?
    ensures var end := Outcome(opts, true, script, UNTOUCHED);
      var goesOn := script.reboot.status == Unavailable || script.reboot.contextCanceled;
      && end.phase == Finished(goesOn && script.stabilize.Ok? &&
        (opts.drain ==> script.uncordonClient.Ok? && script.uncordon.Ok?))
      && (end.marks.stabilized <==> goesOn && script.stabilize.Ok?)
      && (end.marks.rebooting <==> script.reboot.took && !(goesOn && script.stabilize.Ok?))
  {
    OutcomeExactly(opts, script);
  }

  /** A legacy upgrade returns nil exactly when its three calls succeed. The node is
      rebooted if the one upgrade call takes effect, even when it is reported as failed;
      it is left rebooting unless it is then waited for and seen stable. This run never
      cordons it. */
  lemma LegacyOutcomeExactly(opts: Options, script: Script)
    ensures var m := Outcome(opts, false, script, UNTOUCHED).marks;
      && (m.rebooted <==> script.connect.Ok? && (script.legacy.Ok? || script.legacy.took))
      && (m.rebooting <==> m.rebooted && !(script.legacy.Ok? && script.stabilize.Ok?))
      && (m.stabilized <==> script.connect.Ok? && script.legacy.Ok? && script.stabilize.Ok?)
      && !m.cordoned
    ensures Outcome(opts, false, script, UNTOUCHED).phase ==
      Finished(script.connect.Ok? && script.legacy.Ok? && script.stabilize.Ok?)
  {
    var s := Advance(opts, false, script, UNTOUCHED);
    s := Advance(opts, false, script, s);
    if !s.phase.Finished? { s := Advance(opts, false, script, s); }
    if !s.phase.Finished? { s := Advance(opts, false, script, s); }
  }

  /** The states an upgrade goes through under a script, from its start. */
  ghost predicate IsPath(opts: Options, modern: bool, script: Script, path: seq<Node>) {
    && path != [] && path[0] == UNTOUCHED
    && forall k :: 0 <= k < |path| - 1 ==>
        !path[k].phase.Finished? && path[k + 1] == Next(opts, modern, path[k], ReplyTo(script, path[k].phase))
  }

  lemma {:induction false} PathLeadsToOutcome(opts: Options, modern: bool, script: Script, path: seq<Node>, k: nat)
    requires IsPath(opts, modern, script, path) && k < |path|
    ensures Outcome(opts, modern, script, path[k]) == Outcome(opts, modern, script, UNTOUCHED)
    ensures NodeInv(opts, modern, path[k])
  {
    if k > 0 {
      PathLeadsToOutcome(opts, modern, script, path, k - 1);
      var s := Advance(opts, modern, script, path[k - 1]);
      NextKeepsNodeInv(opts, modern, path[k - 1], ReplyTo(script, path[k - 1].phase));
    }
  }

  /** Along the way: the reboot is called, and the node rebooted, only with all of that
      behind it, and the uncordon is called, and the node made schedulable again, only
      after an accepted reboot and a successful wait for stability. */
  lemma {:induction false} PathIsGuarded(opts: Options, script: Script, path: seq<Node>, k: nat)
    requires IsPath(opts, true, script, path) && k < |path|
    ensures NodeInv(opts, true, path[k]) && Explained(opts, script, path[k])
    ensures path[k].phase.Rebooting? || path[k].marks.rebooted ==> Ready(opts, script)
    ensures path[k].marks.rebooted ==> Rebooted(opts, script)
    ensures path[k].phase.Uncordoning? ==> Ready(opts, script) && ComesBack(script)
    ensures k > 0 && path[k - 1].marks.cordoned && !path[k].marks.cordoned ==>
      path[k - 1].phase.Uncordoning? && Uncordoned(opts, script)
  {
    if k > 0 {
      PathIsGuarded(opts, script, path, k - 1);
      NextKeepsNodeInv(opts, true, path[k - 1], ReplyTo(script, path[k - 1].phase));
      NextIsExplained(opts, script, path[k - 1]);
    }
  }

  /** The node behind its Talos and Kubernetes clients, and the states it has been in. */
  class Machine {
    var node: Node
    ghost var path: seq<Node>

    ghost predicate Follows(opts: Options, modern: bool, script: Script)
      reads this
    {
      IsPath(opts, modern, script, path) && path[|path| - 1] == node
    }

    constructor ()
      ensures node == UNTOUCHED && path == [UNTOUCHED]
    {
      node := UNTOUCHED;
      path := [UNTOUCHED];
    }

    /** One remote call, made in the phase the protocol expects it in. */
    method Call(opts: Options, modern: bool, ghost script: Script, phase: Phase, r: Reply)
      requires Follows(opts, modern, script)
      requires node.phase == phase && !phase.Finished? && r == ReplyTo(script, phase)
      modifies this
      ensures Follows(opts, modern, script)
      ensures node.phase == After(opts, modern, phase, Accepted(phase, r))
    {
      node := Next(opts, modern, node, r);
      path := path + [node];
    }

    ghost method Conclude(opts: Options, modern: bool, script: Script)
      requires Follows(opts, modern, script) && node.phase.Finished?
      ensures node == Outcome(opts, modern, script, UNTOUCHED) && NodeInv(opts, modern, node)
    {
      PathLeadsToOutcome(opts, modern, script, path, |path| - 1);
    }

    /** upgradeNode: the flow is chosen by the running version. It ends as the
        protocol does; after nil the node is stable and schedulable, and a modern node
        is rebooted exactly when all before the reboot succeeded and the call took effect. */
    method UpgradeNode(opts: Options, modern: bool, script: Script) returns (ok: bool)
      requires node == UNTOUCHED && path == [UNTOUCHED]
      modifies this
      ensures node == Outcome(opts, modern, script, UNTOUCHED) && node.phase == Finished(ok)
      ensures ok ==> node.marks.stabilized && !node.marks.cordoned && !node.marks.rebooting
      ensures modern ==> (node.marks.rebooted <==> Rebooted(opts, script))
    {
      if modern {
        OutcomeExactly(opts, script);
        ok := UpgradeNodeLifecycle(opts, script);
      } else {
        ok := UpgradeNodeLegacy(opts, script);
      }
      Conclude(opts, modern, script);
    }

    /** The modern flow makes the protocol's calls in the protocol's order, and
        returns nil exactly when every call it needs succeeds, an accepted reboot
        counting as success. */
    method UpgradeNodeLifecycle(opts: Options, script: Script) returns (ok: bool)
      requires node == UNTOUCHED && path == [UNTOUCHED]
      modifies this
      ensures Follows(opts, true, script) && node.phase == Finished(ok)
      ensures ok <==>
        && InstallPartSucceeds(opts, script)
        && (opts.drain ==> DrainSucceeds(opts, script))
        && RebootPartSucceeds(opts, script)
    {
      ok := PullAndInstall(opts, script);
      if !ok { return; }
      if opts.drain {
        ok := DrainNode(opts, script);
        if !ok { return; }
      }
      ok := RebootAndUncordon(opts, script);
    }

    method PullAndInstall(opts: Options, script: Script) returns (ok: bool)
      requires node == UNTOUCHED && path == [UNTOUCHED]
      modifies this
      ensures Follows(opts, true, script)
      ensures ok <==> InstallPartSucceeds(opts, script)
      ensures node.phase == if !ok then Finished(false) else if opts.drain then FetchingDrainClient else Rebooting
    {
      Call(opts, true, script, Pending, Ok);
      Call(opts, true, script, Connecting, script.connect);
      if script.connect.Failed? { return false; }
      if opts.drain {
        Call(opts, true, script, Resolving, script.resolve);
        if script.resolve.Failed? { return false; }
      }
      ok := PullInstallerImage(script.pull);
      Call(opts, true, script, Pulling, if ok then Ok else Refused(false));
      if !ok { return; }
      ok := RunUpgrade(script.install);
      Call(opts, true, script, Installing, if ok then Ok else Refused(script.installTook));
    }

    method RebootAndUncordon(opts: Options, script: Script) returns (ok: bool)
      requires Follows(opts, true, script) && node.phase == Rebooting
      modifies this
      ensures Follows(opts, true, script) && node.phase == Finished(ok)
      ensures ok <==> RebootPartSucceeds(opts, script)
    {
      Call(opts, true, script, Rebooting, script.reboot);
      if script.reboot.Failed? && script.reboot.status != Unavailable && !script.reboot.contextCanceled {
        return false;
      }
      Call(opts, true, script, Stabilizing, script.stabilize);
      if script.stabilize.Failed? { return false; }
      if opts.drain {
        Call(opts, true, script, FetchingUncordonClient, script.uncordonClient);
        if script.uncordonClient.Failed? { return false; }
        Call(opts, true, script, Uncordoning, script.uncordon);
        if script.uncordon.Failed? { return false; }
      }
      return true;
    }

    /** Cordon, then evict, then (if asked for) delete; the second drain does not
        cordon again. */
    method DrainNode(opts: Options, script: Script) returns (ok: bool)
      requires Follows(opts, true, script) && node.phase == FetchingDrainClient
      modifies this
      ensures Follows(opts, true, script)
      ensures ok <==> DrainSucceeds(opts, script)
      ensures node.phase == if ok then Rebooting else Finished(false)
    {
      Call(opts, true, script, FetchingDrainClient, script.drainClient);
      if script.drainClient.Failed? { return false; }
      Call(opts, true, script, Cordoning, script.cordon);
      if script.cordon.Failed? { return false; }
      Call(opts, true, script, Draining, script.drain);
      if script.drain.Ok? { return true; }
      if !opts.deleteIfEvictionFails { return false; }
      Call(opts, true, script, ForceDraining, script.forcedDrain);
      return script.forcedDrain.Ok?;
    }

    /** The legacy flow: one call installs, drains and reboots on the server. */
    method UpgradeNodeLegacy(opts: Options, script: Script) returns (ok: bool)
      requires node == UNTOUCHED && path == [UNTOUCHED]
      modifies this
      ensures Follows(opts, false, script) && node.phase == Finished(ok)
      ensures ok <==> script.connect.Ok? && script.legacy.Ok? && script.stabilize.Ok?
    {
      Call(opts, false, script, Pending, Ok);
      Call(opts, false, script, Connecting, script.connect);
      if script.connect.Failed? { return false; }
      Call(opts, false, script, LegacyUpgrading, script.legacy);
      if script.legacy.Failed? { return false; }
      Call(opts, false, script, Stabilizing, script.stabilize);
      return script.stabilize.Ok?;
    }
  }

  /** What a failed drain leaves: the artifacts installed, no reboot, and a cordon
      exactly when the cordon call took effect, in particular once it is confirmed. */
  lemma FailedDrainLeaves(opts: Options, script: Script)
    requires opts.drain && InstallPartSucceeds(opts, script) && !DrainSucceeds(opts, script)
    ensures Outcome(opts, true, script, UNTOUCHED) == Node(Finished(false), INSTALLED.(
        cordoned := script.drainClient.Ok? && TookEffect(script.cordon),
        cordonConfirmed := script.drainClient.Ok? && script.cordon.Ok?))
  {
    ReachesDrain(opts, script);
    var s := Advance(opts, true, script, Node(FetchingDrainClient, INSTALLED));
    if s.phase.Cordoning? {
      assert s == Node(Cordoning, INSTALLED);
      s := Advance(opts, true, script, s);
      if s.phase.Draining? {
        FailedEviction(opts, script);
      }
    }
  }

  lemma FailedEviction(opts: Options, script: Script)
    requires !script.drain.Ok? && !(opts.deleteIfEvictionFails && script.forcedDrain.Ok?)
    ensures var cordoned := INSTALLED.(cordoned := true, cordonConfirmed := true);
      Outcome(opts, true, script, Node(Draining, cordoned)) == Node(Finished(false), cordoned)
  {
    var s := Advance(opts, true, script, Node(Draining, INSTALLED.(cordoned := true, cordonConfirmed := true)));
    if s.phase.ForceDraining? {
      s := Advance(opts, true, script, s);
    }
  }

  /** A node that does not come back stable is left as rebooting and, when draining,
      still cordoned. */
  lemma UnstableNodeStaysDisrupted(opts: Options, script: Script)
    requires Ready(opts, script)
    requires RebootAccepted(script.reboot) && !script.stabilize.Ok?
    ensures Outcome(opts, true, script, UNTOUCHED) == Node(Finished(false),
      Readied(opts.drain).(rebooting := TookEffect(script.reboot), rebooted := TookEffect(script.reboot)))
  {
    ReachesReboot(opts, script);
    UnstableAfterReboot(opts, script);
  }

  lemma UnstableAfterReboot(opts: Options, script: Script)
    requires RebootAccepted(script.reboot) && !script.stabilize.Ok?
    ensures var took := TookEffect(script.reboot);
      Outcome(opts, true, script, Node(Rebooting, Readied(opts.drain))) ==
      Node(Finished(false), Readied(opts.drain).(rebooting := took, rebooted := took))
  {
    var s := Advance(opts, true, script, Node(Rebooting, Readied(opts.drain)));
    s := Advance(opts, true, script, s);
  }

  /** A complete upgrade, mark by mark. */
  lemma CompleteUpgradeLeaves(opts: Options, script: Script)
    requires Ready(opts, script)
    requires RebootPartSucceeds(opts, script)
    ensures Outcome(opts, true, script, UNTOUCHED) == Node(Finished(true),
      Marks(true, true, true, opts.drain, opts.drain, false, false, TookEffect(script.reboot), true))
  {
    ReachesReboot(opts, script);
    StableAfterReboot(opts, script);
  }

  lemma StableAfterReboot(opts: Options, script: Script)
    requires RebootPartSucceeds(opts, script)
    ensures Outcome(opts, true, script, Node(Rebooting, Readied(opts.drain))) == Node(Finished(true),
      Marks(true, true, true, opts.drain, opts.drain, false, false, TookEffect(script.reboot), true))
  {
    var s := Advance(opts, true, script, Node(Rebooting, Readied(opts.drain)));
    s := Advance(opts, true, script, s);
    if opts.drain {
      s := Advance(opts, true, script, s);
      s := Advance(opts, true, script, s);
    }
  }

  lemma ReachesReboot(opts: Options, script: Script)
    requires Ready(opts, script)
    ensures Outcome(opts, true, script, UNTOUCHED) == Outcome(opts, true, script, Node(Rebooting, Readied(opts.drain)))
  {
    if opts.drain {
      ReachesDrain(opts, script);
      DrainReachesReboot(opts, script);
    } else {
      var s := Advance(opts, true, script, UNTOUCHED);
      s := Advance(opts, true, script, s);
      s := Advance(opts, true, script, s);
      s := Advance(opts, true, script, s);
    }
  }

  lemma DrainReachesReboot(opts: Options, script: Script)
    requires opts.drain && DrainSucceeds(opts, script)
    ensures Outcome(opts, true, script, Node(FetchingDrainClient, INSTALLED)) ==
      Outcome(opts, true, script, Node(Rebooting, Readied(true)))
  {
    var s := Advance(opts, true, script, Node(FetchingDrainClient, INSTALLED));
    s := Advance(opts, true, script, s);
    assert s == Node(Draining, INSTALLED.(cordoned := true, cordonConfirmed := true));
    s := Advance(opts, true, script, s);
    if s.phase.ForceDraining? {
      s := Advance(opts, true, script, s);
    }
  }

  lemma ReachesDrain(opts: Options, script: Script)
    requires opts.drain && InstallPartSucceeds(opts, script)
    ensures Outcome(opts, true, script, UNTOUCHED) == Outcome(opts, true, script, Node(FetchingDrainClient, INSTALLED))
  {
    var s := Advance(opts, true, script, UNTOUCHED);
    s := Advance(opts, true, script, s);
    s := Advance(opts, true, script, s);
    s := Advance(opts, true, script, s);
    s := Advance(opts, true, script, s);
  }

  /** A reply of status Canceled counts as success only if the error also wraps
      context.Canceled. If it does not, the upgrade fails, and where the reboot took
      effect the node is left rebooting and, when draining, cordoned. */
  lemma CanceledStatusIsNotEnough(opts: Options, script: Script)
    requires Ready(opts, script) && script.reboot.Failed? && script.reboot.status == Canceled
    ensures var end := Outcome(opts, true, script, UNTOUCHED);
      && end.phase == Finished(script.reboot.contextCanceled && RebootPartSucceeds(opts, script))
      && (!script.reboot.contextCanceled && script.reboot.took ==>
          end.marks.rebooting && (end.marks.cordoned <==> opts.drain))
  {
    OutcomeExactly(opts, script);
  }

  /** A script on which everything succeeds. */
  const ALL_OK: Script :=
    Script(Ok, Ok, Some([PullName]), Some([ExitCode(0)]), true, Ok, Ok, Ok, Ok, Ok, Ok, Ok, Ok, Ok)

  lemma AllOkIsReady()
    ensures PullConfirmed(ALL_OK.pull) && InstallSucceeded(ALL_OK.install)
  {
    assert FirstTerminal([PullName], EndsPull, 0) && FirstTerminal([ExitCode(0)], EndsInstall, 0);
  }

  /** Not every failed drain leaves the node cordoned: here the Kubernetes client is
      refused, and the node stays schedulable. */
  lemma RefusedDrainClient(script: Script)
    requires script == ALL_OK.(drainClient := Refused(false))
    ensures var end := Outcome(Options(true, true), true, script, UNTOUCHED);
      end == Node(Finished(false), INSTALLED) && !end.marks.cordoned
  {
    AllOkIsReady();
    FailedDrainLeaves(Options(true, true), script);
  }

  /** Not every reboot cut off by its own effect counts as success: here its reply has
      status Canceled, and the node is left rebooting and cordoned. */
  lemma CanceledReboot(script: Script)
    requires script == ALL_OK.(reboot := Failed(Canceled, false, true))
    ensures var end := Outcome(Options(true, true), true, script, UNTOUCHED);
      end.phase == Finished(false) && end.marks.rebooting && end.marks.cordoned
  {
    AllOkIsReady();
    CanceledStatusIsNotEnough(Options(true, true), script);
  }
}
