/**
 * The drawing data model and the integer orientation predicates of `src/graph.rs`:
 * `minmax`, `is_between`, `ccw`, `is_collinear` and `is_crossing`.
 */
module Geometry {

  /** Rust's `u32`. */
  type u32 = x: int | 0 <= x < 0x1_0000_0000

  const U32_MAX: u32 := 0xFFFF_FFFF

  /** `Graph::default_dimension`: the width and height a decoded graph gets when its JSON omits them. */
  const DEFAULT_DIMENSION: u32 := 1_000_000

  datatype Node = Node(id: nat, x: u32, y: u32)

  /** Decoded and carried along, never used by the scoring kernel. */
  datatype Point = Point(id: nat, x: u32, y: u32)

  /** `source` and `target` are positions in `nodes` when a node is fetched, and ids when compared with `Node.id`. */
  datatype Edge = Edge(source: nat, target: nat)

  datatype Graph = Graph(nodes: seq<Node>, points: seq<Point>, edges: seq<Edge>, width: u32, height: u32)

  type Coord = (u32, u32)

  function Position(n: Node): Coord
  {
    (n.x, n.y)
  }

  /** `std::cmp::Ordering`. */
  datatype Ordering = Less | Equal | Greater
  {
    function Reverse(): Ordering
    {
      match this
      case Less => Greater
      case Equal => Equal
      case Greater => Less
    }
  }

  /** `Ord::cmp` on integers. */
  function Compare(a: int, b: int): Ordering
  {
    if a < b then Less else if a == b then Equal else Greater
  }

  /** `minmax`: the two values in ascending order. */
  function MinMax(v1: int, v2: int): (r: (int, int))
    ensures r.0 <= r.1
    ensures multiset{r.0, r.1} == multiset{v1, v2}
  {
    if v1 <= v2 then (v1, v2) else (v2, v1)
  }

  /** `n` lies strictly between `a` and `x`, whichever of the two is the smaller. */
  predicate StrictlyBetween(a: int, n: int, x: int)
  {
    (a < n && n < x) || (x < n && n < a)
  }

  /** `is_between`: `q` lies inside the open bounding box of `p1` and `p2`. */
  function IsBetween(p1: Coord, q: Coord, p2: Coord): (r: bool)
    ensures r <==> StrictlyBetween(p1.0, q.0, p2.0) && StrictlyBetween(p1.1, q.1, p2.1)
    ensures p1.0 == p2.0 || p1.1 == p2.1 ==> !r
  {
    var (minX, maxX) := MinMax(p1.0, p2.0);
    var (minY, maxY) := MinMax(p1.1, p2.1);
    minX < q.0 < maxX && minY < q.1 < maxY
  }

  /** The cross product (q - p) x (r - p): twice the signed area of the triangle p, q, r. */
  function Cross(p: Coord, q: Coord, r: Coord): int
  {
    (q.0 - p.0) * (r.1 - p.1) - (q.1 - p.1) * (r.0 - p.0)
  }

  /** The two sums that `ccw` compares, for p = (a, b), q = (n, m), r = (x, y): y*n + b*x + m*a ... */
  function LeftSum(p: Coord, q: Coord, r: Coord): int
  {
    r.1 * q.0 + p.1 * r.0 + q.1 * p.0
  }

  /** ... against m*x + y*a + b*n. */
  function RightSum(p: Coord, q: Coord, r: Coord): int
  {
    q.1 * r.0 + r.1 * p.0 + p.1 * q.0
  }

  /**
   * `ccw` computed in unbounded integers: the two sums the source compares differ
   * by exactly the cross product, so the comparison is its sign.
   */
  function Ccw(p: Coord, q: Coord, r: Coord): (o: Ordering)
    ensures o == Compare(Cross(p, q, r), 0)
  {
    assert LeftSum(p, q, r) - RightSum(p, q, r) == Cross(p, q, r);
    Compare(LeftSum(p, q, r), RightSum(p, q, r))
  }

  /**
   * `ccw` as written: the products and sums are `u32`, which a release build wraps
   * modulo 2^32 (a debug build panics on the same inputs).
   */
  function CcwWrapping(p: Coord, q: Coord, r: Coord): Ordering
  {
    Compare(LeftSum(p, q, r) % 0x1_0000_0000, RightSum(p, q, r) % 0x1_0000_0000)
  }

  lemma MulBelow(a: int, b: int)
    requires 0 <= a <= 37837 && 0 <= b <= 37837
    ensures 0 <= a * b <= 1431638569
  {
    NonnegativeProduct(37837 - a, b);
    assert (37837 - a) * b == 37837 * b - a * b;
    NonnegativeProduct(a, b);
  }

  lemma NonnegativeProduct(a: int, b: int)
    requires 0 <= a && 0 <= b
    ensures 0 <= a * b
  {
  }

  /** Below the bound of the FIXME the `u32` sums cannot overflow and the written `ccw` is exact. */
  lemma {:induction false} CcwWrappingExactBelowBound(p: Coord, q: Coord, r: Coord)
    requires p.0 <= 37837 && p.1 <= 37837 && q.0 <= 37837 && q.1 <= 37837
    requires r.0 <= 37837 && r.1 <= 37837
    ensures CcwWrapping(p, q, r) == Ccw(p, q, r)
  {
    SumBelow(r.1, q.0, p.1, r.0, q.1, p.0);
    SumBelow(q.1, r.0, r.1, p.0, p.1, q.0);
    var left, right := LeftSum(p, q, r), RightSum(p, q, r);
    assert left % 0x1_0000_0000 == left;
    assert right % 0x1_0000_0000 == right;
    assert CcwWrapping(p, q, r) == Compare(left, right);
  }

  /** Three products of coordinates up to 37837 sum to less than 2^32. */
  lemma SumBelow(a: int, b: int, c: int, d: int, e: int, f: int)
    requires 0 <= a <= 37837 && 0 <= b <= 37837 && 0 <= c <= 37837
    requires 0 <= d <= 37837 && 0 <= e <= 37837 && 0 <= f <= 37837
    ensures 0 <= a * b + c * d + e * f < 0x1_0000_0000
  {
    MulBelow(a, b);
    MulBelow(c, d);
    MulBelow(e, f);
  }

  /** Three in-range points on which the wrapping `ccw` reports the opposite orientation. */
  lemma CcwWrappingWrongOrientation()
    ensures Ccw((0, 0), (65536, 1), (1, 65536)) == Greater
    ensures CcwWrapping((0, 0), (65536, 1), (1, 65536)) == Less
  {
    assert Cross((0, 0), (65536, 1), (1, 65536)) == 65536 * 65536 - 1;
  }

  /** `is_collinear`. */
  function IsCollinear(p1: Coord, q: Coord, p2: Coord): (r: bool)
    ensures r <==> Cross(p1, q, p2) == 0
  {
    Ccw(p1, q, p2) == Equal
  }

  predicate SharesEndpoint(p1: Coord, q1: Coord, p2: Coord, q2: Coord)
  {
    p1 == p2 || p1 == q2 || q1 == p2 || q1 == q2
  }

  /**
   * `is_crossing`: segments p1-q1 and p2-q2 with no common endpoint cross when each
   * segment's endpoints get different orientations with respect to the other segment.
   */
  function IsCrossing(p1: Coord, q1: Coord, p2: Coord, q2: Coord): (r: bool)
    ensures SharesEndpoint(p1, q1, p2, q2) ==> !r
  {
    if SharesEndpoint(p1, q1, p2, q2) then
      false
    else
      var o1 := Ccw(p1, q1, p2);
      var o2 := Ccw(p1, q1, q2);
      var o3 := Ccw(p2, q2, p1);
      var o4 := Ccw(p2, q2, q1);
      o1 != o2 && o3 != o4
  }

  /** Swapping the first two points of an orientation test reverses it. */
  lemma {:induction false} CcwSwap(p: Coord, q: Coord, r: Coord)
    ensures Ccw(q, p, r) == Ccw(p, q, r).Reverse()
  {
    assert Cross(q, p, r) == -Cross(p, q, r) by {
      calc {
        Cross(q, p, r);
        (p.0 - q.0) * (r.1 - q.1) - (p.1 - q.1) * (r.0 - q.0);
        (p.0 - q.0) * (r.1 - p.1) + (p.0 - q.0) * (p.1 - q.1)
          - (p.1 - q.1) * (r.0 - p.0) - (p.1 - q.1) * (p.0 - q.0);
        -((q.0 - p.0) * (r.1 - p.1) - (q.1 - p.1) * (r.0 - p.0));
      }
    }
  }

  /** `is_crossing` does not depend on which segment comes first. */
  lemma IsCrossingSymmetric(p1: Coord, q1: Coord, p2: Coord, q2: Coord)
    ensures IsCrossing(p1, q1, p2, q2) == IsCrossing(p2, q2, p1, q1)
  {
  }

  /** `is_crossing` does not depend on the direction of either segment. */
  lemma {:induction false} IsCrossingUndirected(p1: Coord, q1: Coord, p2: Coord, q2: Coord)
    ensures IsCrossing(p1, q1, p2, q2) == IsCrossing(q1, p1, p2, q2)
    ensures IsCrossing(p1, q1, p2, q2) == IsCrossing(p1, q1, q2, p2)
  {
    CcwSwap(p1, q1, p2);
    CcwSwap(p1, q1, q2);
    CcwSwap(p2, q2, p1);
    CcwSwap(p2, q2, q1);
  }

  /**
   * Under the assumption stated on `is_crossing` (no three of the points collinear),
   * it holds exactly when each segment's endpoints lie strictly on opposite sides of the other.
   */
  lemma {:induction false} IsCrossingInGeneralPosition(p1: Coord, q1: Coord, p2: Coord, q2: Coord)
    requires Cross(p1, q1, p2) != 0 && Cross(p1, q1, q2) != 0
    requires Cross(p2, q2, p1) != 0 && Cross(p2, q2, q1) != 0
    requires !SharesEndpoint(p1, q1, p2, q2)
    ensures IsCrossing(p1, q1, p2, q2) <==>
      (Cross(p1, q1, p2) < 0 <==> Cross(p1, q1, q2) > 0) && (Cross(p2, q2, p1) < 0 <==> Cross(p2, q2, q1) > 0)
  {
  }
}
