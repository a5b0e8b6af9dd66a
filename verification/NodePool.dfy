/** Nodes as the commands handle them: gathered from the configuration in order, and
    split by role. */
module NodePool {
  import opened Common
  import NodeOrder

  datatype Stage = Running | Maintenance | Booting | OtherStage

  /** A configured node and what was found on it; broken stands for a recorded error,
      image for the installer image of its generated configuration. */
  datatype Node = Node(
    config: NodeOrder.Node, broken: bool, ready: bool, stage: Stage,
    image: string, runningSchematic: string, runningVersion: string)

  /** What gathering finds on each configured node. */
  type Findings = NodeOrder.Node -> Node

  ghost predicate KeepsConfig(gather: Findings) { forall n :: gather(n).config == n }

  function Named(matches: Text -> bool): NodeOrder.Node -> bool {
    (n: NodeOrder.Node) => matches(n.host)
  }

  function Gathered(config: seq<NodeOrder.Node>, gather: Findings): seq<Node> {
    seq(|config|, k requires 0 <= k < |config| => gather(config[k]))
  }

  /** FilteredNodes: the nodes whose host matches, in configuration order. */
  method FilteredNodes(config: seq<NodeOrder.Node>, matches: Text -> bool, gather: Findings) returns (nodes: seq<Node>)
    ensures nodes == Gathered(Filter(config, Named(matches)), gather)
  {
    nodes := [];
    for k := 0 to |config|
      invariant nodes == Gathered(Filter(config[..k], Named(matches)), gather)
    {
      assert config[..k + 1] == config[..k] + [config[k]];
      FilterSnoc(config[..k], config[k], Named(matches));
      if !matches(config[k].host) { continue; }
      nodes := nodes + [gather(config[k])];
    }
    assert config[..|config|] == config;
  }

  predicate NotAfter(a: Node, b: Node) { NodeOrder.NotAfter(a.config, b.config) }

  lemma GatheredInOrder(config: seq<NodeOrder.Node>, matches: Text -> bool, gather: Findings)
    requires NodeOrder.Sorted(config) && KeepsConfig(gather)
    ensures OrderedBy(Gathered(Filter(config, Named(matches)), gather), NotAfter)
  {
    FilterKeepsOrder(config, Named(matches), NodeOrder.NotAfter);
    var kept := Filter(config, Named(matches));
    assert forall i, j :: 0 <= i < j < |kept| ==> NodeOrder.NotAfter(kept[i], kept[j]);
  }

  // ---------------------------------------------------------------- the split by role

  function HasRole(role: NodeOrder.Role): Node -> bool { (n: Node) => n.config.role == role }

  function ControlPlanes(nodes: seq<Node>): seq<Node> { Filter(nodes, HasRole(NodeOrder.ControlPlane)) }

  function Workers(nodes: seq<Node>): seq<Node> { Filter(nodes, HasRole(NodeOrder.Worker)) }

  /** PartitionByRole: each group in the order of the list. */
  method PartitionByRole(nodes: seq<Node>) returns (controlPlane: seq<Node>, workers: seq<Node>)
    ensures controlPlane == ControlPlanes(nodes) && workers == Workers(nodes)
  {
    controlPlane, workers := [], [];
    for k := 0 to |nodes|
      invariant controlPlane == ControlPlanes(nodes[..k])
      invariant workers == Workers(nodes[..k])
    {
      assert nodes[..k + 1] == nodes[..k] + [nodes[k]];
      FilterSnoc(nodes[..k], nodes[k], HasRole(NodeOrder.ControlPlane));
      FilterSnoc(nodes[..k], nodes[k], HasRole(NodeOrder.Worker));
      if nodes[k].config.role == NodeOrder.ControlPlane {
        controlPlane := controlPlane + [nodes[k]];
      } else {
        workers := workers + [nodes[k]];
      }
    }
    assert nodes[..|nodes|] == nodes;
  }

  /** The two groups together are a rearrangement of the list. */
  lemma {:induction false} PartsAreTheNodes(nodes: seq<Node>)
    ensures multiset(ControlPlanes(nodes)) + multiset(Workers(nodes)) == multiset(nodes)
    ensures |ControlPlanes(nodes)| + |Workers(nodes)| == |nodes|
  {
    if nodes != [] {
      PartsAreTheNodes(nodes[1..]);
      assert nodes == [nodes[0]] + nodes[1..];
    }
  }

  ghost predicate ControlPlanesFirst(nodes: seq<Node>) {
    forall i, j :: 0 <= i < j < |nodes| ==>
      !(nodes[i].config.role == NodeOrder.Worker && nodes[j].config.role == NodeOrder.ControlPlane)
  }

  /** They are the list itself exactly when its control planes come first. */
  lemma PartsMakeTheList(nodes: seq<Node>)
    ensures ControlPlanes(nodes) + Workers(nodes) == nodes <==> ControlPlanesFirst(nodes)
  {
    var front, back := ControlPlanes(nodes), Workers(nodes);
    FilterMembers(nodes, HasRole(NodeOrder.ControlPlane));
    FilterMembers(nodes, HasRole(NodeOrder.Worker));
    if front + back == nodes {
      forall i, j | 0 <= i < j < |nodes|
        ensures !(nodes[i].config.role == NodeOrder.Worker && nodes[j].config.role == NodeOrder.ControlPlane)
      {
        assert i < |front| ==> nodes[i] == front[i] && front[i] in front;
        assert j >= |front| ==> nodes[j] == back[j - |front|] && back[j - |front|] in back;
      }
    }
    if ControlPlanesFirst(nodes) { PartsInOrder(nodes); }
  }

  lemma {:induction false} PartsInOrder(nodes: seq<Node>)
    requires ControlPlanesFirst(nodes)
    ensures ControlPlanes(nodes) + Workers(nodes) == nodes
  {
    if nodes != [] {
      PartsInOrder(nodes[1..]);
      if nodes[0].config.role == NodeOrder.Worker {
        FilterNone(nodes[1..], HasRole(NodeOrder.ControlPlane));
      }
    }
  }

  /** Nodes gathered from a sorted configuration split without being rearranged, and
      still do after any further selection. */
  lemma OrderedNodesSplitInPlace(nodes: seq<Node>, keep: Node -> bool)
    requires OrderedBy(nodes, NotAfter)
    ensures OrderedBy(Filter(nodes, keep), NotAfter)
    ensures ControlPlanes(Filter(nodes, keep)) + Workers(Filter(nodes, keep)) == Filter(nodes, keep)
  {
    FilterKeepsOrder(nodes, keep, NotAfter);
    var kept := Filter(nodes, keep);
    forall i, j | 0 <= i < j < |kept|
      ensures !(kept[i].config.role == NodeOrder.Worker && kept[j].config.role == NodeOrder.ControlPlane)
    {
      assert NotAfter(kept[i], kept[j]);
    }
    PartsMakeTheList(kept);
  }
}
