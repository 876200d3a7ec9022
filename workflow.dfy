/**
 * The agent graph: the project manager node runs first and hands over to a
 * worker by the workflow stage; every worker hands back to the manager unless
 * the stage is `complete`.
 */
module Workflow {
  import opened Optional
  import opened AgentState

  datatype NodeName = Sisyphus | Architect | Coder | QaNode

  /** Where a conditional edge leads: a node, or the graph's end. */
  datatype Target = ToNode(node: NodeName) | End

  /** The node the graph starts at. */
  const Entry := Sisyphus

  predicate IsWorker(n: NodeName) {
    n != Sisyphus
  }

  /** `route_from_sisyphus`; a missing stage reads as `idle`. */
  function RouteFromSisyphus(stage: Option<Stage>): (r: Target)
    ensures r != ToNode(Sisyphus)
  {
    match stage
    case Some(Design) => ToNode(Architect)
    case Some(Coding) => ToNode(Coder)
    case Some(Qa) => ToNode(QaNode)
    case _ => End
  }

  /** The manager hands over exactly on the three working stages, each to its own worker. */
  lemma RouteFromSisyphusCases(stage: Option<Stage>)
    ensures RouteFromSisyphus(stage) == ToNode(Architect) <==> stage == Some(Design)
    ensures RouteFromSisyphus(stage) == ToNode(Coder) <==> stage == Some(Coding)
    ensures RouteFromSisyphus(stage) == ToNode(QaNode) <==> stage == Some(Qa)
    ensures RouteFromSisyphus(stage) == End <==> stage !in {Some(Design), Some(Coding), Some(Qa)}
  {
  }

  /** `route_back_to_sisyphus`. */
  function RouteBack(stage: Option<Stage>): (r: Target)
    ensures r == End || r == ToNode(Sisyphus)
  {
    if stage == Some(Complete) then End else ToNode(Sisyphus)
  }

  /** A worker ends the run exactly on `complete`. */
  lemma RouteBackEndsOnlyWhenComplete(stage: Option<Stage>)
    ensures RouteBack(stage) == End <==> stage == Some(Complete)
  {
  }

  /** The conditional edges `create_workflow` installs: the routing of each node. */
  function Route(at: NodeName, stage: Option<Stage>): (r: Target)
    ensures r.ToNode? ==> (at == Sisyphus <==> IsWorker(r.node))
  {
    if at == Sisyphus then RouteFromSisyphus(stage) else RouteBack(stage)
  }

  /** The nodes a node may lead to, with `End` for the end of the run. */
  function Successors(at: NodeName): set<Target> {
    if at == Sisyphus then {ToNode(Architect), ToNode(Coder), ToNode(QaNode), End}
    else {ToNode(Sisyphus), End}
  }

  /** Every route stays on an edge the graph declares, and every declared edge is taken for some stage. */
  lemma RouteOnEdges(at: NodeName, stage: Option<Stage>)
    ensures Route(at, stage) in Successors(at)
    ensures forall t :: t in Successors(at) ==> exists s: Option<Stage> :: Route(at, s) == t
  {
    assert Route(Sisyphus, Some(Design)) == ToNode(Architect);
    assert Route(Sisyphus, Some(Coding)) == ToNode(Coder);
    assert Route(Sisyphus, Some(Qa)) == ToNode(QaNode);
    assert Route(at, Some(Complete)) == End;
    if at != Sisyphus {
      assert Route(at, Some(Idle)) == ToNode(Sisyphus);
    }
  }

  /**
   * The nodes visited after `at` when the k-th node run leaves the stage
   * `stages[k]`, stopping at the end or when the stages run out.
   */
  function Walk(at: NodeName, stages: seq<Option<Stage>>): (r: seq<NodeName>)
    ensures |r| <= |stages|
    decreases |stages|
  {
    if stages == [] then []
    else
      match Route(at, stages[0])
      case End => []
      case ToNode(n) => [n] + Walk(n, stages[1..])
  }

  /** Manager and workers take turns: from the manager, the odd steps are the manager and the even ones workers. */
  lemma {:induction false} WalkAlternates(at: NodeName, stages: seq<Option<Stage>>)
    ensures forall k :: 0 <= k < |Walk(at, stages)| ==>
              (Walk(at, stages)[k] == Sisyphus <==> (at == Sisyphus <==> k % 2 == 1))
    decreases |stages|
  {
    if stages != [] && Route(at, stages[0]).ToNode? {
      var n := Route(at, stages[0]).node;
      WalkAlternates(n, stages[1..]);
      assert Walk(at, stages) == [n] + Walk(n, stages[1..]);
    }
  }

  /** A walk stops short of its stages only on a route to the end. */
  lemma {:induction false} WalkStopsAtEnd(at: NodeName, stages: seq<Option<Stage>>)
    requires |Walk(at, stages)| < |stages|
    ensures var w := Walk(at, stages);
            Route(if w == [] then at else w[|w| - 1], stages[|w|]) == End
    decreases |stages|
  {
    if Route(at, stages[0]).ToNode? {
      var n := Route(at, stages[0]).node;
      WalkStopsAtEnd(n, stages[1..]);
      assert Walk(at, stages) == [n] + Walk(n, stages[1..]);
    }
  }
}
