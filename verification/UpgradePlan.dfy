/** Before an upgrade: the checks over all nodes, the plan of which to upgrade, and
    the run it leads to. */
module UpgradePlan {
  import opened Common
  import opened NodePool
  import NodeUpgrade
  import MaxParallel
  import Rollout

  predicate Sound(node: Node) { !node.broken && node.stage == Running }

  /** preChecks: looks at every node before it answers. */
  method PreChecks(nodes: seq<Node>) returns (ok: bool)
    ensures ok <==> forall k :: 0 <= k < |nodes| ==> Sound(nodes[k])
    ensures ok <==> forall k :: 0 <= k < |nodes| ==> !nodes[k].broken && nodes[k].stage == Running
  {
    var abort := false;
    for k := 0 to |nodes|
      invariant abort <==> exists j :: 0 <= j < k && !Sound(nodes[j])
    {
      if nodes[k].broken {
        abort := true;
        continue;
      }
      if nodes[k].stage != Running {
        abort := true;
        continue;
      }
    }
    return !abort;
  }

  // ---------------------------------------------------------------- the plan

  datatype Planned = BadImage(image: string) | Planned(worklist: seq<Node>, upgradeRequired: bool)

  /** How schematic and version are read off an image: extractSchematicAndVersion,
      which is InstallerImage.Extract. Planning holds for any such function. */
  type Parser = string -> Option<(string, string)>

  /** declines says for which nodes the prompt, if shown, is answered with no. */
  datatype Mode = Mode(dryRun: bool, confirm: bool, declines: Node -> bool)

  predicate Readable(parse: Parser, node: Node) { parse(node.image).Some? }

  /** The running pair differs from the one the image names. */
  predicate NeedsUpgrade(parse: Parser, node: Node) {
    Readable(parse, node) && parse(node.image).value != (node.runningSchematic, node.runningVersion)
  }

  predicate Declined(mode: Mode, node: Node) { mode.confirm && mode.declines(node) }

  function Choice(parse: Parser, mode: Mode): Node -> bool {
    (node: Node) => NeedsUpgrade(parse, node) && !mode.dryRun && !Declined(mode, node)
  }

  /** What planning must answer. */
  ghost function PlanOf(parse: Parser, nodes: seq<Node>, mode: Mode): Planned {
    Planned(Filter(nodes, Choice(parse, mode)), exists k :: 0 <= k < |nodes| && NeedsUpgrade(parse, nodes[k]))
  }

  ghost predicate AllReadable(parse: Parser, nodes: seq<Node>) {
    forall k :: 0 <= k < |nodes| ==> Readable(parse, nodes[k])
  }

  ghost predicate FirstUnreadable(parse: Parser, nodes: seq<Node>, k: int) {
    0 <= k < |nodes| && !Readable(parse, nodes[k]) && AllReadable(parse, nodes[..k])
  }

  /** An unreadable image anywhere is an error, reported for the first such node;
      otherwise the worklist keeps the order and is what the answers leave. */
  method Plan(parse: Parser, nodes: seq<Node>, mode: Mode) returns (r: Planned)
    ensures r.Planned? ==> AllReadable(parse, nodes) && r == PlanOf(parse, nodes, mode)
    ensures r.BadImage? ==> exists k :: FirstUnreadable(parse, nodes, k) && r.image == nodes[k].image
  {
    var worklist: seq<Node>, upgradeRequired := [], false;
    for k := 0 to |nodes|
      invariant AllReadable(parse, nodes[..k])
      invariant worklist == Filter(nodes[..k], Choice(parse, mode))
      invariant upgradeRequired <==> exists j :: 0 <= j < k && NeedsUpgrade(parse, nodes[j])
    {
      var node := nodes[k];
      OneMorePlanned(parse, nodes, mode, k);
      var named := parse(node.image);
      if named.None? {
        assert FirstUnreadable(parse, nodes, k);
        return BadImage(node.image);
      }
      if named.value.1 == node.runningVersion && named.value.0 == node.runningSchematic { continue; }
      upgradeRequired := true;
      if mode.dryRun { continue; }
      if mode.confirm {
        if mode.declines(node) { continue; }
      }
      worklist := worklist + [node];
    }
    assert nodes[..|nodes|] == nodes;
    return Planned(worklist, upgradeRequired);
  }

  lemma OneMorePlanned(parse: Parser, nodes: seq<Node>, mode: Mode, k: nat)
    requires k < |nodes|
    ensures nodes[..k + 1] == nodes[..k] + [nodes[k]]
    ensures Filter(nodes[..k + 1], Choice(parse, mode)) ==
      Filter(nodes[..k], Choice(parse, mode)) + (if Choice(parse, mode)(nodes[k]) then [nodes[k]] else [])
  {
    assert nodes[..k + 1] == nodes[..k] + [nodes[k]];
    FilterSnoc(nodes[..k], nodes[k], Choice(parse, mode));
  }

  /** Which nodes are planned for: those whose schematic or version differs from the
      image's, unless nothing is to be done or the prompt was answered with no. */
  lemma WorklistExactly(parse: Parser, nodes: seq<Node>, mode: Mode, x: Node)
    requires AllReadable(parse, nodes)
    ensures x in PlanOf(parse, nodes, mode).worklist <==>
      && x in nodes && parse(x.image).Some?
      && (parse(x.image).value.0 != x.runningSchematic || parse(x.image).value.1 != x.runningVersion)
      && !mode.dryRun && !(mode.confirm && mode.declines(x))
    ensures PlanOf(parse, nodes, mode).upgradeRequired <==>
      exists k :: 0 <= k < |nodes| &&
        parse(nodes[k].image) != Some((nodes[k].runningSchematic, nodes[k].runningVersion))
  {
    FilterMembers(nodes, Choice(parse, mode));
    forall k | 0 <= k < |nodes|
      ensures NeedsUpgrade(parse, nodes[k]) <==>
        parse(nodes[k].image) != Some((nodes[k].runningSchematic, nodes[k].runningVersion))
    {
      assert Readable(parse, nodes[k]);
    }
  }

  /** A dry run reports changes exactly when the same run with every prompt accepted
      would have something to do. */
  lemma {:induction false} DryRunForetells(parse: Parser, nodes: seq<Node>, mode: Mode)
    ensures PlanOf(parse, nodes, mode.(dryRun := true)).worklist == []
    ensures PlanOf(parse, nodes, mode.(dryRun := true)).upgradeRequired <==>
      PlanOf(parse, nodes, mode.(dryRun := false, confirm := false)).worklist != []
  {
    if nodes != [] {
      DryRunForetells(parse, nodes[1..], mode);
      assert forall k :: 1 <= k < |nodes| ==> nodes[k] == nodes[1..][k - 1];
    }
  }

  /** The node once it reports the pair its image names. */
  function Upgraded(parse: Parser, node: Node): Node
    requires Readable(parse, node)
  {
    var (schematic, version) := parse(node.image).value;
    node.(runningSchematic := schematic, runningVersion := version)
  }

  /** The nodes after the worklist has been upgraded. */
  ghost function AfterUpgrade(parse: Parser, nodes: seq<Node>, mode: Mode): (r: seq<Node>)
    requires AllReadable(parse, nodes)
    ensures |r| == |nodes| && AllReadable(parse, r)
    ensures forall k :: 0 <= k < |nodes| ==>
      r[k] == if Choice(parse, mode)(nodes[k]) then Upgraded(parse, nodes[k]) else nodes[k]
  {
    if nodes == [] then [] else
    [if Choice(parse, mode)(nodes[0]) then Upgraded(parse, nodes[0]) else nodes[0]] +
    AfterUpgrade(parse, nodes[1..], mode)
  }

  function LeftBehind(parse: Parser, mode: Mode): Node -> bool {
    (node: Node) => NeedsUpgrade(parse, node) && Declined(mode, node)
  }

  /** Planning again finds exactly the nodes that were declined, in order; so with
      none declined it finds nothing. */
  lemma {:induction false} PlanningConverges(parse: Parser, nodes: seq<Node>, mode: Mode)
    requires AllReadable(parse, nodes) && !mode.dryRun
    ensures PlanOf(parse, AfterUpgrade(parse, nodes, mode), mode.(confirm := false)).worklist ==
      Filter(nodes, LeftBehind(parse, mode))
  {
    if nodes != [] {
      PlanningConverges(parse, nodes[1..], mode);
      assert AfterUpgrade(parse, nodes, mode)[1..] == AfterUpgrade(parse, nodes[1..], mode);
    }
  }

  // ---------------------------------------------------------------- from the plan to the run

  datatype Prepared =
    | NotReady
    | Unreadable(image: string)
    | DryRun(changes: bool)
    | Go(order: seq<Node>, rollout: Rollout.Config)

  /** Execute up to its first remote change: the run it starts covers exactly the
      planned nodes, control planes first, and its limit counts all nodes given. */
  method Prepare(parse: Parser, nodes: seq<Node>, mode: Mode, opts: NodeUpgrade.Options,
                 limit: MaxParallel.MaxParallel, supportsLifecycle: string -> bool) returns (r: Prepared)
    ensures r.NotReady? <==> exists k :: 0 <= k < |nodes| && !Sound(nodes[k])
    ensures r.Unreadable? ==> exists k :: FirstUnreadable(parse, nodes, k) && r.image == nodes[k].image
    ensures r.DryRun? ==> AllReadable(parse, nodes)
    ensures r.DryRun? ==> mode.dryRun && r.changes == PlanOf(parse, nodes, mode).upgradeRequired
    ensures r.Go? ==> !mode.dryRun && AllReadable(parse, nodes)
    ensures r.Go? ==> IsRunOf(r, PlanOf(parse, nodes, mode).worklist, opts, limit, supportsLifecycle, |nodes|)
  {
    var ok := PreChecks(nodes);
    if !ok { return NotReady; }
    var planned := Plan(parse, nodes, mode);
    if planned.BadImage? { return Unreadable(planned.image); }
    if mode.dryRun { return DryRun(planned.upgradeRequired); }
    var controlPlane, workers := PartitionByRole(planned.worklist);
    PartsAreTheNodes(planned.worklist);
    FilterIsShorter(nodes, Choice(parse, mode));
    var order := controlPlane + workers;
    var modern := seq(|order|, k requires 0 <= k < |order| => supportsLifecycle(order[k].runningVersion));
    return Go(order, Rollout.Config(opts, modern, |controlPlane|, limit, |nodes|));
  }

  ghost predicate IsRunOf(r: Prepared, worklist: seq<Node>, opts: NodeUpgrade.Options, limit: MaxParallel.MaxParallel,
                          supportsLifecycle: string -> bool, total: nat)
    requires r.Go?
  {
    var c := r.rollout;
    && Rollout.ValidConfig(c) && c.opts == opts && c.limit == limit && c.total == total
    && r.order == ControlPlanes(worklist) + Workers(worklist) && c.cps == |ControlPlanes(worklist)|
    && |c.modern| == |r.order|
    && forall k :: 0 <= k < |r.order| ==> c.modern[k] == supportsLifecycle(r.order[k].runningVersion)
  }

  lemma {:induction false} FilterIsShorter(s: seq<Node>, keep: Node -> bool)
    ensures |Filter(s, keep)| <= |s|
  {
    if s != [] { FilterIsShorter(s[1..], keep); }
  }
}
