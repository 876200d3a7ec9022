/**
 * The detail panel's neighbour query: the nodes at the other end of the
 * edges into and out of the selected node, and the risk level the panel
 * derives from how many there are.
 */
module SubPanel {
  import opened Optional
  import opened Graph

  datatype Direction = Incoming | Outgoing

  /** The end of `e` that must be the selected node. */
  function NearEnd(e: Edge, d: Direction): string {
    if d == Incoming then e.target else e.source
  }

  /** The end of `e` whose node is listed. */
  function FarEnd(e: Edge, d: Direction): string {
    if d == Incoming then e.source else e.target
  }

  /**
   * `edges.filter(edge => edge.<near> === id).map(edge => nodes.find(node =>
   * node.id === edge.<far>)).filter(node => node !== undefined)`, in one pass
   * over the edges.
   */
  function Neighbours(nodes: seq<Node>, edges: seq<Edge>, id: string, d: Direction): (r: seq<Node>)
    ensures |r| <= |edges|
  {
    if edges == [] then []
    else
      var e := edges[0];
      var found := FindById(nodes, FarEnd(e, d));
      (if NearEnd(e, d) == id && found.Some? then [found.value] else []) + Neighbours(nodes, edges[1..], id, d)
  }

  /** The number of edges whose near end is `id`. */
  function EdgesAt(edges: seq<Edge>, id: string, d: Direction): nat {
    if edges == [] then 0
    else (if NearEnd(edges[0], d) == id then 1 else 0) + EdgesAt(edges[1..], id, d)
  }

  /** Every listed node is on the canvas and sits at the far end of an edge whose near end is `id`. */
  lemma {:induction false} NeighboursSound(nodes: seq<Node>, edges: seq<Edge>, id: string, d: Direction)
    ensures forall n :: n in Neighbours(nodes, edges, id, d) ==>
              n in nodes && exists e :: e in edges && NearEnd(e, d) == id && FarEnd(e, d) == n.id
  {
    if edges != [] {
      NeighboursSound(nodes, edges[1..], id, d);
      var found := FindById(nodes, FarEnd(edges[0], d));
      if found.Some? {
        assert found.value in nodes && found.value.id == FarEnd(edges[0], d);
      }
      assert forall e :: e in edges[1..] ==> e in edges;
    }
  }

  /** Every edge at `id` whose far end is on the canvas contributes that node. */
  lemma {:induction false} NeighboursComplete(nodes: seq<Node>, edges: seq<Edge>, id: string, d: Direction)
    ensures forall e :: e in edges && NearEnd(e, d) == id && FindById(nodes, FarEnd(e, d)).Some? ==>
              FindById(nodes, FarEnd(e, d)).value in Neighbours(nodes, edges, id, d)
  {
    if edges != [] {
      NeighboursComplete(nodes, edges[1..], id, d);
      assert forall e :: e in edges ==> e == edges[0] || e in edges[1..];
    }
  }

  /**
   * One node per edge at `id`, duplicates kept: never more nodes than such
   * edges, and exactly as many when every far end is on the canvas.
   */
  lemma {:induction false} NeighboursCount(nodes: seq<Node>, edges: seq<Edge>, id: string, d: Direction)
    ensures |Neighbours(nodes, edges, id, d)| <= EdgesAt(edges, id, d)
    ensures (forall k :: 0 <= k < |edges| ==> FindById(nodes, FarEnd(edges[k], d)).Some?) ==>
              |Neighbours(nodes, edges, id, d)| == EdgesAt(edges, id, d)
  {
    if edges != [] {
      NeighboursCount(nodes, edges[1..], id, d);
      assert forall k :: 1 <= k < |edges| ==> edges[1..][k - 1] == edges[k];
    }
  }

  /** The edge turned around. */
  function Flip(e: Edge): Edge {
    e.(source := e.target, target := e.source)
  }

  function FlipAll(edges: seq<Edge>): (r: seq<Edge>)
    ensures |r| == |edges| && forall k :: 0 <= k < |edges| ==> r[k] == Flip(edges[k])
  {
    seq(|edges|, k requires 0 <= k < |edges| => Flip(edges[k]))
  }

  /** The outgoing list is the incoming list of the graph with every edge turned around. */
  lemma {:induction false} OutgoingMirrorsIncoming(nodes: seq<Node>, edges: seq<Edge>, id: string)
    ensures Neighbours(nodes, edges, id, Outgoing) == Neighbours(nodes, FlipAll(edges), id, Incoming)
  {
    if edges != [] {
      assert FlipAll(edges)[1..] == FlipAll(edges[1..]);
      OutgoingMirrorsIncoming(nodes, edges[1..], id);
    }
  }

  datatype Connections = Connections(incoming: seq<Node>, outgoing: seq<Node>)

  /** `connectedNodes`. */
  function ConnectedNodes(selected: Option<Node>, nodes: seq<Node>, edges: seq<Edge>): (r: Connections)
    ensures selected.None? ==> r.incoming == [] && r.outgoing == []
    ensures |r.incoming| <= |edges| && |r.outgoing| <= |edges|
  {
    match selected
    case None => Connections([], [])
    case Some(s) => Connections(Neighbours(nodes, edges, s.id, Incoming), Neighbours(nodes, edges, s.id, Outgoing))
  }

  // ---------------------------------------------------------------------------
  // Risk
  // ---------------------------------------------------------------------------

  datatype Risk = Safe | Low | Medium | High

  /** The level's order of severity. */
  function Severity(r: Risk): nat {
    match r
    case Safe => 0
    case Low => 1
    case Medium => 2
    case High => 3
  }

  /** The label shown for the level. */
  function RiskLabel(r: Risk): string {
    match r
    case Safe => "안전"
    case Low => "낮음"
    case Medium => "주의"
    case High => "위험"
  }

  /** `riskLevel` by the number of connections. */
  function RiskLevel(total: nat): Risk {
    if total == 0 then Safe
    else if total <= 2 then Low
    else if total <= 4 then Medium
    else High
  }

  /** The thresholds: none is safe, one or two low, three or four medium, five or more high. */
  lemma RiskBands(total: nat)
    ensures RiskLevel(total) == Safe <==> total == 0
    ensures RiskLevel(total) == Low <==> 1 <= total <= 2
    ensures RiskLevel(total) == Medium <==> 3 <= total <= 4
    ensures RiskLevel(total) == High <==> total >= 5
  {
  }

  /** More connections never lower the risk. */
  lemma RiskMonotone(a: nat, b: nat)
    requires a <= b
    ensures Severity(RiskLevel(a)) <= Severity(RiskLevel(b))
  {
  }

  /** The panel's risk for the current selection. */
  function SelectionRisk(selected: Option<Node>, nodes: seq<Node>, edges: seq<Edge>): (r: Risk)
    ensures selected.None? ==> r == Safe
  {
    var c := ConnectedNodes(selected, nodes, edges);
    RiskLevel(|c.incoming| + |c.outgoing|)
  }
}
