/** `Graph::is_valid` of `src/graph.rs`: the drawing validator and what its verdict means. */
module Validation {
  import opened Wrappers
  import opened Geometry

  /** The violations `is_valid` reports, with the values its messages print. */
  datatype ValidationError =
    | IdOutOfBounds(id: nat, numNodes: nat)
    | XExceedsWidth(x: u32, width: u32)
    | YExceedsHeight(y: u32, height: u32)
    | Overlap(firstId: nat, id: nat, x: u32, y: u32)
    | SourceOutOfBounds(source: nat, numNodes: nat)
    | TargetOutOfBounds(target: nat, numNodes: nat)
    | Collinear(id: nat, source: nat, target: nat, x: u32, y: u32)
  {
    predicate IsEdgeError()
    {
      SourceOutOfBounds? || TargetOutOfBounds? || Collinear?
    }
  }

  // ---------------------------------------------------------------------------
  // The checks, one node or one edge at a time, in the order the source runs them.

  /** The `coordinates` map after the first k nodes have been inserted. */
  function CoordinatesUpTo(nodes: seq<Node>, k: nat): map<Coord, nat>
    requires k <= |nodes|
  {
    if k == 0 then map[] else CoordinatesUpTo(nodes, k - 1)[Position(nodes[k - 1]) := nodes[k - 1].id]
  }

  /** The first check node k fails, given the coordinates of the nodes before it. */
  function NodeError(g: Graph, k: nat): Option<ValidationError>
    requires k < |g.nodes|
  {
    var node := g.nodes[k];
    var seen := CoordinatesUpTo(g.nodes, k);
    if node.id >= |g.nodes| then Some(IdOutOfBounds(node.id, |g.nodes|))
    else if node.x > g.width then Some(XExceedsWidth(node.x, g.width))
    else if node.y > g.height then Some(YExceedsHeight(node.y, g.height))
    else if Position(node) in seen then Some(Overlap(seen[Position(node)], node.id, node.x, node.y))
    else None
  }

  function FirstNodeError(g: Graph, k: nat): Option<ValidationError>
    requires k <= |g.nodes|
    decreases |g.nodes| - k
  {
    if k == |g.nodes| then None
    else if NodeError(g, k).Some? then NodeError(g, k)
    else FirstNodeError(g, k + 1)
  }

  /** The first node, from position k on, that is not an endpoint of `e` (by id) and lies on it. */
  function CollinearError(g: Graph, e: Edge, k: nat): Option<ValidationError>
    requires e.source < |g.nodes| && e.target < |g.nodes| && k <= |g.nodes|
    decreases |g.nodes| - k
  {
    if k == |g.nodes| then None
    else
      var node := g.nodes[k];
      var from := Position(g.nodes[e.source]);
      var to := Position(g.nodes[e.target]);
      if node.id == e.source || node.id == e.target then CollinearError(g, e, k + 1)
      else if !IsBetween(from, Position(node), to) then CollinearError(g, e, k + 1)
      else if IsCollinear(from, Position(node), to) then Some(Collinear(node.id, e.source, e.target, node.x, node.y))
      else CollinearError(g, e, k + 1)
  }

  function EdgeError(g: Graph, e: Edge): Option<ValidationError>
  {
    if e.source >= |g.nodes| then Some(SourceOutOfBounds(e.source, |g.nodes|))
    else if e.target >= |g.nodes| then Some(TargetOutOfBounds(e.target, |g.nodes|))
    else CollinearError(g, e, 0)
  }

  function FirstEdgeError(g: Graph, i: nat): Option<ValidationError>
    requires i <= |g.edges|
    decreases |g.edges| - i
  {
    if i == |g.edges| then None
    else if EdgeError(g, g.edges[i]).Some? then EdgeError(g, g.edges[i])
    else FirstEdgeError(g, i + 1)
  }

  /** What `is_valid` returns: the first violation, every node check before any edge check. */
  function Validate(g: Graph): Result<(), ValidationError>
  {
    var nodeError := FirstNodeError(g, 0);
    if nodeError.Some? then Err(nodeError.value)
    else
      var edgeError := FirstEdgeError(g, 0);
      if edgeError.Some? then Err(edgeError.value) else Ok(())
  }

  /** `Graph::is_valid`. */
  method IsValid(g: Graph) returns (r: Result<(), ValidationError>)
    ensures r == Validate(g)
  {
    var nodeError := CheckNodes(g);
    if nodeError.Some? {
      return Err(nodeError.value);
    }
    for i := 0 to |g.edges|
      invariant FirstEdgeError(g, 0) == FirstEdgeError(g, i)
    {
      var edge := g.edges[i];
      if edge.source >= |g.nodes| {
        return Err(SourceOutOfBounds(edge.source, |g.nodes|));
      }
      if edge.target >= |g.nodes| {
        return Err(TargetOutOfBounds(edge.target, |g.nodes|));
      }
      var collinear := CheckEdge(g, edge);
      if collinear.Some? {
        return Err(collinear.value);
      }
    }
    return Ok(());
  }

  /** The node loop of `is_valid`, with its `coordinates` map. */
  method CheckNodes(g: Graph) returns (e: Option<ValidationError>)
    ensures e == FirstNodeError(g, 0)
  {
    var numNodes := |g.nodes|;
    var coordinates: map<Coord, nat> := map[];
    for k := 0 to numNodes
      invariant coordinates == CoordinatesUpTo(g.nodes, k)
      invariant FirstNodeError(g, 0) == FirstNodeError(g, k)
    {
      var node := g.nodes[k];
      if node.id >= numNodes {
        return Some(IdOutOfBounds(node.id, numNodes));
      }
      if node.x > g.width {
        return Some(XExceedsWidth(node.x, g.width));
      }
      if node.y > g.height {
        return Some(YExceedsHeight(node.y, g.height));
      }
      if (node.x, node.y) in coordinates {
        return Some(Overlap(coordinates[(node.x, node.y)], node.id, node.x, node.y));
      }
      coordinates := coordinates[(node.x, node.y) := node.id];
    }
    return None;
  }

  /** The inner loop of the edge checks: the first node lying on the edge. */
  method CheckEdge(g: Graph, edge: Edge) returns (e: Option<ValidationError>)
    requires EdgeInRange(g, edge)
    ensures e == CollinearError(g, edge, 0)
  {
    for k := 0 to |g.nodes|
      invariant CollinearError(g, edge, 0) == CollinearError(g, edge, k)
    {
      var node := g.nodes[k];
      if node.id == edge.source || node.id == edge.target {
        continue;
      }
      var from := g.nodes[edge.source];
      var to := g.nodes[edge.target];
      if !IsBetween((from.x, from.y), (node.x, node.y), (to.x, to.y)) {
        continue;
      }
      if IsCollinear((from.x, from.y), (node.x, node.y), (to.x, to.y)) {
        return Some(Collinear(node.id, edge.source, edge.target, node.x, node.y));
      }
    }
    return None;
  }

  // ---------------------------------------------------------------------------
  // The declarative reading: what a drawing that passes looks like.

  predicate NodeInBounds(g: Graph, node: Node)
  {
    node.id < |g.nodes| && node.x <= g.width && node.y <= g.height
  }

  predicate DistinctPositions(nodes: seq<Node>)
  {
    forall i, j :: 0 <= i < j < |nodes| ==> Position(nodes[i]) != Position(nodes[j])
  }

  predicate EdgeInRange(g: Graph, e: Edge)
  {
    e.source < |g.nodes| && e.target < |g.nodes|
  }

  /** No node whose id is not an endpoint id lies strictly inside the edge's box and on its line. */
  predicate NoNodeOnEdge(g: Graph, e: Edge)
    requires EdgeInRange(g, e)
  {
    forall k :: 0 <= k < |g.nodes| && g.nodes[k].id != e.source && g.nodes[k].id != e.target ==>
      !(IsBetween(Position(g.nodes[e.source]), Position(g.nodes[k]), Position(g.nodes[e.target]))
        && IsCollinear(Position(g.nodes[e.source]), Position(g.nodes[k]), Position(g.nodes[e.target])))
  }

  predicate NodesWellFormed(g: Graph)
  {
    (forall k :: 0 <= k < |g.nodes| ==> NodeInBounds(g, g.nodes[k])) && DistinctPositions(g.nodes)
  }

  predicate EdgesWellFormed(g: Graph)
  {
    forall i :: 0 <= i < |g.edges| ==> EdgeInRange(g, g.edges[i]) && NoNodeOnEdge(g, g.edges[i])
  }

  /** A drawing `is_valid` accepts. Node ids need only be below n: duplicates are not rejected. */
  predicate ValidDrawing(g: Graph)
  {
    NodesWellFormed(g) && EdgesWellFormed(g)
  }

  /** The coordinates map holds exactly the positions of the nodes inserted so far, each with the id of one of them. */
  lemma {:induction false} CoordinatesHoldEarlierNodes(nodes: seq<Node>, k: nat)
    requires k <= |nodes|
    ensures forall p :: p in CoordinatesUpTo(nodes, k) <==> exists i :: 0 <= i < k && Position(nodes[i]) == p
    ensures forall p :: p in CoordinatesUpTo(nodes, k) ==>
      exists i :: 0 <= i < k && Position(nodes[i]) == p && nodes[i].id == CoordinatesUpTo(nodes, k)[p]
  {
    if k > 0 {
      CoordinatesHoldEarlierNodes(nodes, k - 1);
    }
  }

  lemma {:induction false} NoNodeErrorFrom(g: Graph, k: nat)
    requires k <= |g.nodes|
    ensures FirstNodeError(g, k) == None <==> forall j :: k <= j < |g.nodes| ==> NodeError(g, j) == None
    decreases |g.nodes| - k
  {
    if k < |g.nodes| {
      NoNodeErrorFrom(g, k + 1);
    }
  }

  lemma {:induction false} NodeErrorsIffNodesWellFormed(g: Graph)
    ensures (forall j :: 0 <= j < |g.nodes| ==> NodeError(g, j) == None) <==> NodesWellFormed(g)
  {
    forall j | 0 <= j < |g.nodes| {
      CoordinatesHoldEarlierNodes(g.nodes, j);
    }
    if forall j :: 0 <= j < |g.nodes| ==> NodeError(g, j) == None {
      forall i, j | 0 <= i < j < |g.nodes| ensures Position(g.nodes[i]) != Position(g.nodes[j]) {
        assert NodeError(g, j) == None;
        assert Position(g.nodes[j]) !in CoordinatesUpTo(g.nodes, j);
      }
      forall k | 0 <= k < |g.nodes| ensures NodeInBounds(g, g.nodes[k]) {
        assert NodeError(g, k) == None;
      }
    }
  }

  lemma {:induction false} NoCollinearErrorFrom(g: Graph, e: Edge, k: nat)
    requires EdgeInRange(g, e) && k <= |g.nodes|
    ensures CollinearError(g, e, k) == None <==>
      forall j :: k <= j < |g.nodes| && g.nodes[j].id != e.source && g.nodes[j].id != e.target ==>
        !(IsBetween(Position(g.nodes[e.source]), Position(g.nodes[j]), Position(g.nodes[e.target]))
          && IsCollinear(Position(g.nodes[e.source]), Position(g.nodes[j]), Position(g.nodes[e.target])))
    decreases |g.nodes| - k
  {
    if k < |g.nodes| {
      NoCollinearErrorFrom(g, e, k + 1);
    }
  }

  lemma {:induction false} NoEdgeErrorFrom(g: Graph, i: nat)
    requires i <= |g.edges|
    ensures FirstEdgeError(g, i) == None <==>
      forall j :: i <= j < |g.edges| ==> EdgeInRange(g, g.edges[j]) && NoNodeOnEdge(g, g.edges[j])
    decreases |g.edges| - i
  {
    if i < |g.edges| {
      NoEdgeErrorFrom(g, i + 1);
      if EdgeInRange(g, g.edges[i]) {
        NoCollinearErrorFrom(g, g.edges[i], 0);
      }
    }
  }

  /** `is_valid` returns Ok exactly for the drawings meeting every condition. */
  lemma {:induction false} ValidateOkIffValidDrawing(g: Graph)
    ensures Validate(g).Ok? <==> ValidDrawing(g)
  {
    NoNodeErrorFrom(g, 0);
    NodeErrorsIffNodesWellFormed(g);
    NoEdgeErrorFrom(g, 0);
  }

  lemma {:induction false} FirstNodeErrorIsFirst(g: Graph, k: nat)
    requires k <= |g.nodes| && FirstNodeError(g, k).Some?
    ensures exists m :: (k <= m < |g.nodes| && NodeError(g, m) == FirstNodeError(g, k)
                         && forall j :: k <= j < m ==> NodeError(g, j) == None)
    decreases |g.nodes| - k
  {
    if NodeError(g, k).None? {
      FirstNodeErrorIsFirst(g, k + 1);
    }
  }

  lemma {:induction false} FirstEdgeErrorIsFirst(g: Graph, i: nat)
    requires i <= |g.edges| && FirstEdgeError(g, i).Some?
    ensures exists m :: (i <= m < |g.edges| && EdgeError(g, g.edges[m]) == FirstEdgeError(g, i)
                         && forall j :: i <= j < m ==> EdgeError(g, g.edges[j]) == None)
    decreases |g.edges| - i
  {
    if EdgeError(g, g.edges[i]).None? {
      FirstEdgeErrorIsFirst(g, i + 1);
    }
  }

  lemma {:induction false} CollinearErrorIsEdgeKind(g: Graph, e: Edge, k: nat)
    requires EdgeInRange(g, e) && k <= |g.nodes|
    ensures CollinearError(g, e, k).Some? ==> CollinearError(g, e, k).value.Collinear?
    decreases |g.nodes| - k
  {
    if k < |g.nodes| {
      CollinearErrorIsEdgeKind(g, e, k + 1);
    }
  }

  /** The reported violation is the first one: an earlier node, or every node when an edge is blamed, passed every check. */
  lemma {:induction false} ValidateReportsFirstViolation(g: Graph)
    requires Validate(g).Err?
    ensures !Validate(g).error.IsEdgeError() ==>
      exists k :: 0 <= k < |g.nodes| && NodeError(g, k) == Some(Validate(g).error)
        && forall j :: 0 <= j < k ==> NodeError(g, j) == None
    ensures Validate(g).error.IsEdgeError() ==>
      NodesWellFormed(g) &&
      exists i :: 0 <= i < |g.edges| && EdgeError(g, g.edges[i]) == Some(Validate(g).error)
        && forall j :: 0 <= j < i ==> EdgeError(g, g.edges[j]) == None
  {
    if FirstNodeError(g, 0).Some? {
      FirstNodeErrorIsFirst(g, 0);
    } else {
      NoNodeErrorFrom(g, 0);
      NodeErrorsIffNodesWellFormed(g);
      FirstEdgeErrorIsFirst(g, 0);
      var m :| 0 <= m < |g.edges| && EdgeError(g, g.edges[m]) == FirstEdgeError(g, 0);
      if EdgeInRange(g, g.edges[m]) {
        CollinearErrorIsEdgeKind(g, g.edges[m], 0);
      }
    }
  }

  // ---------------------------------------------------------------------------
  // Small drawings.

  /** A node exactly on an edge between two others is rejected; one unit off the line it is accepted. */
  lemma NodeOnEdgeRejected()
    ensures Validate(Graph([Node(0, 0, 0), Node(1, 10, 10), Node(2, 5, 5)], [], [Edge(0, 1)], 100, 100))
      == Err(Collinear(2, 0, 1, 5, 5))
    ensures Validate(Graph([Node(0, 0, 0), Node(1, 10, 10), Node(2, 5, 6)], [], [Edge(0, 1)], 100, 100)) == Ok(())
  {
    var g := Graph([Node(0, 0, 0), Node(1, 10, 10), Node(2, 5, 5)], [], [Edge(0, 1)], 100, 100);
    assert CoordinatesUpTo(g.nodes, 2) == map[(0, 0) := 0, (10, 10) := 1];
    assert FirstNodeError(g, 0) == None;
    assert CollinearError(g, Edge(0, 1), 0) == Some(Collinear(2, 0, 1, 5, 5));
    var h := Graph([Node(0, 0, 0), Node(1, 10, 10), Node(2, 5, 6)], [], [Edge(0, 1)], 100, 100);
    assert CoordinatesUpTo(h.nodes, 2) == map[(0, 0) := 0, (10, 10) := 1];
    assert FirstNodeError(h, 0) == None;
    assert Cross((0, 0), (5, 6), (10, 10)) != 0;
    assert CollinearError(h, Edge(0, 1), 0) == None;
  }

  /** Two nodes at the same coordinates are rejected, naming the earlier node first. */
  lemma SharedCoordinatesRejected()
    ensures Validate(Graph([Node(0, 3, 3), Node(1, 3, 3)], [], [], 100, 100)) == Err(Overlap(0, 1, 3, 3))
  {
    var g := Graph([Node(0, 3, 3), Node(1, 3, 3)], [], [], 100, 100);
    assert NodeError(g, 0) == None;
    assert CoordinatesUpTo(g.nodes, 1) == map[(3, 3) := 0];
  }

  /** Duplicate node ids are NOT rejected: only `id < n` is checked. */
  lemma DuplicateIdsAccepted()
    ensures Validate(Graph([Node(0, 1, 1), Node(0, 2, 2)], [], [], 100, 100)) == Ok(())
  {
    var g := Graph([Node(0, 1, 1), Node(0, 2, 2)], [], [], 100, 100);
    assert CoordinatesUpTo(g.nodes, 1) == map[(1, 1) := 0];
    assert NodeError(g, 1) == None;
  }
}
