/** Shared vocabulary of the slab design engine: optional and error results,
    grid axes, panel sides and edges, panel kinds, the numeric tolerance used
    throughout, and a few real-number helpers. */
module Common {

  datatype Option<+T> = None | Some(value: T) {
    function GetOr(default: T): T {
      match this
      case Some(v) => v
      case None => default
    }
  }

  /** The failures the engine raises as exceptions. */
  datatype Error =
    | NonPositiveDepth      // effective depth d <= 0 ("d<=0: h/cover ...")
    | NoRebarFound(asReq: real, sMax: int)  // selector found no bar combination

  datatype Result<+T> = Ok(value: T) | Err(error: Error)

  /** Grid directions: X runs along cell index i, Y along cell index j. */
  datatype Axis = X | Y

  /** The two sides of a panel along an axis: START is the low index side. */
  datatype Side = Start | End

  /** The four panel edges: Left (i0), Right (i1), Top (j0), Bottom (j1). */
  datatype Edge = L | R | T | B

  /** Panel kinds. */
  datatype Kind = Oneway | Twoway | Balcony

  /** The tolerance the source writes as 1e-9. */
  const Eps: real := 1.0e-9

  /** The four edges in the order the source iterates them. */
  const EdgeOrder: seq<Edge> := [L, R, T, B]

  /** The position of an edge in the order L, R, T, B. */
  function EdgeIndex(e: Edge): (k: nat)
    ensures k < 4 && EdgeOrder[k] == e
  {
    match e
    case L => 0
    case R => 1
    case T => 2
    case B => 3
  }

  function Other(a: Axis): (r: Axis)
    ensures r != a
  {
    if a == X then Y else X
  }

  /** The edge that lies on the given side along the given axis. */
  function SideEdge(a: Axis, s: Side): (e: Edge)
    ensures (e == L || e == R) <==> a == X
    ensures (e == L || e == T) <==> s == Start
  {
    match (a, s)
    case (X, Start) => L
    case (X, End) => R
    case (Y, Start) => T
    case (Y, End) => B
  }

  /** The axis an edge lies across: L and R bound the panel along X. */
  function EdgeAxis(e: Edge): (a: Axis)
    ensures SideEdge(a, EdgeSide(e)) == e
  {
    if e == L || e == R then X else Y
  }

  function EdgeSide(e: Edge): (s: Side)
    ensures s == Start <==> e == L || e == T
  {
    if e == L || e == T then Start else End
  }

  function Max(a: real, b: real): (r: real)
    ensures r >= a && r >= b && (r == a || r == b)
  {
    if a >= b then a else b
  }

  function Min(a: real, b: real): (r: real)
    ensures r <= a && r <= b && (r == a || r == b)
  {
    if a <= b then a else b
  }

  function Abs(a: real): (r: real)
    ensures r >= 0.0 && (r == a || r == -a)
  {
    if a < 0.0 then -a else a
  }

  function MaxInt(a: int, b: int): (r: int)
    ensures r >= a && r >= b && (r == a || r == b)
  {
    if a >= b then a else b
  }

  function MinInt(a: int, b: int): (r: int)
    ensures r <= a && r <= b && (r == a || r == b)
  {
    if a <= b then a else b
  }

  /** Python's int() on a float: truncation toward zero. */
  function Trunc(x: real): (r: int)
    ensures x >= 0.0 ==> r as real <= x < r as real + 1.0
    ensures x < 0.0 ==> r as real - 1.0 < x <= r as real
  {
    if x >= 0.0 then x.Floor else -((-x).Floor)
  }

  /** Python's lexicographic string order (Dafny's < on sequences is the
      proper-prefix order, so it is written out). */
  predicate LexLess(a: string, b: string)
  {
    if |a| == 0 then |b| > 0
    else if |b| == 0 then false
    else if a[0] != b[0] then a[0] < b[0]
    else LexLess(a[1..], b[1..])
  }

  lemma {:induction false} LexLessTotal(a: string, b: string)
    requires a != b
    ensures LexLess(a, b) != LexLess(b, a)
  {
    if |a| == 0 || |b| == 0 {
    } else if a[0] != b[0] {
    } else {
      assert a == [a[0]] + a[1..] && b == [b[0]] + b[1..];
      LexLessTotal(a[1..], b[1..]);
    }
  }
}
