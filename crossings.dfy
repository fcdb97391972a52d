/** `Graph::crossings` of `src/graph.rs`: the O(E^2) crossing counter and its specification. */
module Crossings {
  import opened Geometry

  /** `SimpleEdge`: an edge with its endpoints' coordinates looked up. */
  datatype Segment = Segment(source: Coord, target: Coord)

  /** `CrossingCountingResult`. */
  datatype CrossingCountingResult = CrossingCountingResult(total: nat, maxPerEdge: nat)

  /** Every edge endpoint is a valid position in `nodes`; otherwise `crossings` indexes out of bounds and panics. */
  predicate EndpointsInRange(g: Graph)
  {
    forall i :: 0 <= i < |g.edges| ==> g.edges[i].source < |g.nodes| && g.edges[i].target < |g.nodes|
  }

  /** The edges as segments, endpoints fetched by position: `self.nodes[edge.source]`. */
  function Segments(g: Graph): (s: seq<Segment>)
    requires EndpointsInRange(g)
    ensures |s| == |g.edges|
    ensures forall i :: 0 <= i < |s| ==>
      s[i] == Segment(Position(g.nodes[g.edges[i].source]), Position(g.nodes[g.edges[i].target]))
  {
    seq(|g.edges|, i requires 0 <= i < |g.edges| =>
      Segment(Position(g.nodes[g.edges[i].source]), Position(g.nodes[g.edges[i].target])))
  }

  predicate Crosses(a: Segment, b: Segment)
  {
    IsCrossing(a.source, a.target, b.source, b.target)
  }

  /** How many of the segments s[i+1..j] cross s[i]. */
  function RowUpTo(s: seq<Segment>, i: nat, j: nat): nat
    requires i < j <= |s|
    decreases j
  {
    if j == i + 1 then 0 else RowUpTo(s, i, j - 1) + (if Crosses(s[i], s[j - 1]) then 1 else 0)
  }

  /** The forward count of edge i: how many LATER edges cross it. */
  function Row(s: seq<Segment>, i: nat): nat
    requires i < |s|
  {
    RowUpTo(s, i, |s|)
  }

  function TotalUpTo(s: seq<Segment>, n: nat): nat
    requires n <= |s|
  {
    if n == 0 then 0 else TotalUpTo(s, n - 1) + Row(s, n - 1)
  }

  function MaxUpTo(s: seq<Segment>, n: nat): nat
    requires n <= |s|
  {
    if n == 0 then 0 else Max(MaxUpTo(s, n - 1), Row(s, n - 1))
  }

  function Max(a: nat, b: nat): nat
  {
    if a < b then b else a
  }

  /** The number `total` should be: the forward counts summed over all edges. */
  function Total(s: seq<Segment>): nat
  {
    TotalUpTo(s, |s|)
  }

  /** The number `max_per_edge` should be: the largest forward count. */
  function MaxRow(s: seq<Segment>): nat
  {
    MaxUpTo(s, |s|)
  }

  /** `Graph::crossings`: for each edge, count the later edges crossing it; add up and keep the maximum. */
  method CountCrossings(g: Graph) returns (r: CrossingCountingResult)
    requires EndpointsInRange(g)
    ensures r.total == Total(Segments(g))
    ensures r.maxPerEdge == MaxRow(Segments(g))
  {
    var edges := Segments(g);
    var totalCrossings, maxCrossingsPerEdge := 0, 0;
    for i1 := 0 to |edges|
      invariant totalCrossings == TotalUpTo(edges, i1)
      invariant maxCrossingsPerEdge == MaxUpTo(edges, i1)
    {
      var crossings := CountLaterCrossings(edges, i1);
      maxCrossingsPerEdge := Max(maxCrossingsPerEdge, crossings);
      totalCrossings := totalCrossings + crossings;
    }
    r := CrossingCountingResult(totalCrossings, maxCrossingsPerEdge);
  }

  /** The inner loop of `crossings`: how many of the edges after `i1` cross it. */
  method CountLaterCrossings(edges: seq<Segment>, i1: nat) returns (crossings: nat)
    requires i1 < |edges|
    ensures crossings == Row(edges, i1)
  {
    crossings := 0;
    for i2 := i1 + 1 to |edges|
      invariant crossings == RowUpTo(edges, i1, i2)
    {
      if Crosses(edges[i1], edges[i2]) {
        crossings := crossings + 1;
      }
    }
  }

  /** The crossing result of a graph, as the score the callers read. */
  function MaxPerEdge(g: Graph): nat
    requires EndpointsInRange(g)
  {
    MaxRow(Segments(g))
  }

  // ---------------------------------------------------------------------------
  // What the two numbers mean.

  /** The unordered crossing pairs i < j. */
  function CrossingPairs(s: seq<Segment>): set<(nat, nat)>
  {
    set i: nat, j: nat | i < j < |s| && Crosses(s[i], s[j]) :: (i, j)
  }

  function PairsBelow(s: seq<Segment>, n: nat): set<(nat, nat)>
  {
    set i: nat, j: nat | i < n && i < j < |s| && Crosses(s[i], s[j]) :: (i, j)
  }

  function RowPairs(s: seq<Segment>, i: nat, j: nat): set<(nat, nat)>
    requires i < |s|
  {
    set k: nat | i < k < j && k < |s| && Crosses(s[i], s[k]) :: (i, k)
  }

  lemma {:induction false} RowPairsCount(s: seq<Segment>, i: nat, j: nat)
    requires i < j <= |s|
    ensures |RowPairs(s, i, j)| == RowUpTo(s, i, j)
    decreases j
  {
    if j == i + 1 {
      assert RowPairs(s, i, j) == {};
    } else {
      RowPairsCount(s, i, j - 1);
      RowPairsStep(s, i, j);
    }
  }

  /** Widening the row by edge j - 1 adds its pair exactly when it crosses edge i. */
  lemma RowPairsStep(s: seq<Segment>, i: nat, j: nat)
    requires i + 1 < j <= |s|
    ensures Crosses(s[i], s[j - 1]) ==>
      RowPairs(s, i, j) == RowPairs(s, i, j - 1) + {(i, j - 1)} && (i, j - 1) !in RowPairs(s, i, j - 1)
    ensures !Crosses(s[i], s[j - 1]) ==> RowPairs(s, i, j) == RowPairs(s, i, j - 1)
  {
    forall p | p in RowPairs(s, i, j)
      ensures p in RowPairs(s, i, j - 1) || (p == (i, j - 1) && Crosses(s[i], s[j - 1]))
    {
    }
  }

  lemma {:induction false} PairsBelowCount(s: seq<Segment>, n: nat)
    requires n <= |s|
    ensures |PairsBelow(s, n)| == TotalUpTo(s, n)
  {
    if n == 0 {
      NoPairsBelowZero(s);
    } else {
      PairsBelowCount(s, n - 1);
      PairsBelowStep(s, n);
    }
  }

  lemma NoPairsBelowZero(s: seq<Segment>)
    ensures |PairsBelow(s, 0)| == 0
  {
    assert PairsBelow(s, 0) == {};
  }

  /** The pairs below n are those below n - 1 together with row n - 1, which shares none of them. */
  lemma PairsBelowStep(s: seq<Segment>, n: nat)
    requires 0 < n <= |s|
    ensures |PairsBelow(s, n)| == |PairsBelow(s, n - 1)| + Row(s, n - 1)
  {
    RowPairsCount(s, n - 1, |s|);
    var below, row := PairsBelow(s, n - 1), RowPairs(s, n - 1, |s|);
    forall p | p in PairsBelow(s, n)
      ensures p in below || p in row
    {
    }
    assert PairsBelow(s, n) == below + row;
    assert below * row == {};
    assert |below + row| + |below * row| == |below| + |row|;
  }

  /** `total` is the number of unordered pairs of edges that cross. */
  lemma {:induction false} TotalCountsCrossingPairs(s: seq<Segment>)
    ensures Total(s) == |CrossingPairs(s)|
  {
    PairsBelowCount(s, |s|);
    assert PairsBelow(s, |s|) == CrossingPairs(s);
  }

  /** The later edges that cross edge i, up to position j. */
  function LaterCrossing(s: seq<Segment>, i: nat, j: nat): set<nat>
    requires i < |s|
  {
    set k: nat | i < k < j && k < |s| && Crosses(s[i], s[k])
  }

  /** Edge i's forward count is the number of later edges that cross it. */
  lemma {:induction false} RowCountsLaterCrossings(s: seq<Segment>, i: nat, j: nat)
    requires i < j <= |s|
    ensures RowUpTo(s, i, j) == |LaterCrossing(s, i, j)|
    decreases j
  {
    if j == i + 1 {
      assert LaterCrossing(s, i, j) == {};
    } else {
      RowCountsLaterCrossings(s, i, j - 1);
      LaterCrossingStep(s, i, j);
    }
  }

  /** Widening the range by edge j - 1 adds it exactly when it crosses edge i. */
  lemma LaterCrossingStep(s: seq<Segment>, i: nat, j: nat)
    requires i + 1 < j <= |s|
    ensures Crosses(s[i], s[j - 1]) ==> LaterCrossing(s, i, j) == LaterCrossing(s, i, j - 1) + {j - 1}
    ensures !Crosses(s[i], s[j - 1]) ==> LaterCrossing(s, i, j) == LaterCrossing(s, i, j - 1)
  {
  }

  /** `max_per_edge` is the largest forward count (0 when there are no edges). */
  lemma {:induction false} MaxRowIsLargestRow(s: seq<Segment>, n: nat)
    requires n <= |s|
    ensures forall i :: 0 <= i < n ==> Row(s, i) <= MaxUpTo(s, n)
    ensures n == 0 ==> MaxUpTo(s, n) == 0
    ensures n > 0 ==> exists i :: 0 <= i < n && Row(s, i) == MaxUpTo(s, n)
  {
    if n > 0 {
      MaxRowIsLargestRow(s, n - 1);
    }
  }

  /** The maximum never exceeds the total. */
  lemma {:induction false} MaxRowAtMostTotal(s: seq<Segment>, n: nat)
    requires n <= |s|
    ensures MaxUpTo(s, n) <= TotalUpTo(s, n)
  {
    if n > 0 {
      MaxRowAtMostTotal(s, n - 1);
    }
  }

  /** A graph with no edge or a single edge has no crossing. */
  lemma FewEdgesNoCrossings(s: seq<Segment>)
    requires |s| <= 1
    ensures Total(s) == 0 && MaxRow(s) == 0
  {
    if |s| == 1 {
      assert Row(s, 0) == 0;
      assert TotalUpTo(s, 1) == TotalUpTo(s, 0) + Row(s, 0);
      assert MaxUpTo(s, 1) == Max(MaxUpTo(s, 0), Row(s, 0));
    }
  }

  // ---------------------------------------------------------------------------
  // Two drawings of a square.

  function Square(edges: seq<Edge>): Graph
  {
    Graph([Node(0, 0, 0), Node(1, 10, 0), Node(2, 10, 10), Node(3, 0, 10)], [], edges, DEFAULT_DIMENSION, DEFAULT_DIMENSION)
  }

  /** The two diagonals of a square cross once. */
  lemma SquareDiagonalsCrossOnce()
    ensures EndpointsInRange(Square([Edge(0, 2), Edge(1, 3)]))
    ensures Total(Segments(Square([Edge(0, 2), Edge(1, 3)]))) == 1
    ensures MaxPerEdge(Square([Edge(0, 2), Edge(1, 3)])) == 1
  {
    var s := Segments(Square([Edge(0, 2), Edge(1, 3)]));
    assert s == [Segment((0, 0), (10, 10)), Segment((10, 0), (0, 10))];
    assert Crosses(s[0], s[1]);
    assert Row(s, 0) == 1;
    assert Row(s, 1) == 0;
  }

  /** The four sides of a square do not cross. */
  lemma SquareSidesDoNotCross()
    ensures EndpointsInRange(Square([Edge(0, 1), Edge(1, 2), Edge(2, 3), Edge(3, 0)]))
    ensures Total(Segments(Square([Edge(0, 1), Edge(1, 2), Edge(2, 3), Edge(3, 0)]))) == 0
  {
    var s := Segments(Square([Edge(0, 1), Edge(1, 2), Edge(2, 3), Edge(3, 0)]));
    assert s == [Segment((0, 0), (10, 0)), Segment((10, 0), (10, 10)), Segment((10, 10), (0, 10)), Segment((0, 10), (0, 0))];
    SidesDoNotCross(s);
  }

  lemma SidesDoNotCross(s: seq<Segment>)
    requires s == [Segment((0, 0), (10, 0)), Segment((10, 0), (10, 10)), Segment((10, 10), (0, 10)), Segment((0, 10), (0, 0))]
    ensures Total(s) == 0
  {
    assert !Crosses(s[0], s[2]);
    assert !Crosses(s[1], s[3]);
    assert RowUpTo(s, 0, 2) == 0 && RowUpTo(s, 0, 3) == 0 && Row(s, 0) == 0;
    assert RowUpTo(s, 1, 3) == 0 && Row(s, 1) == 0;
    assert RowUpTo(s, 2, 3) == 0 && Row(s, 2) == 0;
    assert Row(s, 3) == 0;
    assert TotalUpTo(s, 1) == 0;
    assert TotalUpTo(s, 2) == 0;
    assert TotalUpTo(s, 3) == 0;
    assert TotalUpTo(s, 4) == 0;
  }

  // ---------------------------------------------------------------------------
  // A drawing where the forward count is not the number of crossings on an edge.

  /** Two vertical edges and a horizontal edge through both. */
  function Comb(): Graph
  {
    Graph([Node(0, 2, 0), Node(1, 2, 10), Node(2, 6, 0), Node(3, 6, 10), Node(4, 0, 5), Node(5, 10, 5)], [],
          [Edge(0, 1), Edge(2, 3), Edge(4, 5)], DEFAULT_DIMENSION, DEFAULT_DIMENSION)
  }

  /**
   * Each crossing is counted for the earlier of its two edges only: the last edge crosses both
   * others, yet `max_per_edge` is 1.
   */
  lemma MaxPerEdgeCountsForwardOnly()
    ensures EndpointsInRange(Comb())
    ensures MaxPerEdge(Comb()) == 1
    ensures var s := Segments(Comb()); Crosses(s[2], s[0]) && Crosses(s[2], s[1])
  {
    var s := Segments(Comb());
    assert s == [Segment((2, 0), (2, 10)), Segment((6, 0), (6, 10)), Segment((0, 5), (10, 5))];
    CombRows(s);
  }

  lemma CombRows(s: seq<Segment>)
    requires s == [Segment((2, 0), (2, 10)), Segment((6, 0), (6, 10)), Segment((0, 5), (10, 5))]
    ensures MaxRow(s) == 1
    ensures Crosses(s[2], s[0]) && Crosses(s[2], s[1])
  {
    CombCrossings(s);
    assert RowUpTo(s, 0, 2) == 0 && Row(s, 0) == 1;
    assert RowUpTo(s, 1, 2) == 0 && Row(s, 1) == 1;
    assert Row(s, 2) == 0;
    assert MaxUpTo(s, 1) == 1;
    assert MaxUpTo(s, 2) == 1;
  }

  lemma CombCrossings(s: seq<Segment>)
    requires s == [Segment((2, 0), (2, 10)), Segment((6, 0), (6, 10)), Segment((0, 5), (10, 5))]
    ensures !Crosses(s[0], s[1])
    ensures Crosses(s[0], s[2]) && Crosses(s[1], s[2])
    ensures Crosses(s[2], s[0]) && Crosses(s[2], s[1])
  {
    IsCrossingSymmetric((2, 0), (2, 10), (0, 5), (10, 5));
    IsCrossingSymmetric((6, 0), (6, 10), (0, 5), (10, 5));
  }
}
