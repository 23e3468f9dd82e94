/** Values shared by every stage of the centreline pipeline. */
module Common {

  datatype Option<T> = None | Some(value: T)

  /** The exceptions the Python pipeline can raise on the paths that are modelled. */
  datatype Error =
    | UnsupportedShape    // the section is not a PSC "...CEL" box: the vertex lists are never bound
    | IndexError          // a list is indexed past its end (too few points in a member)
    | EmptySequence       // max()/min() over an empty member
    | ZeroDivision        // intersect() of two parallel lines
    | MissingConnector    // a web's top point has no perpendicular foot on a flange (None propagates)

  datatype Result<T> = Ok(value: T) | Err(error: Error)

  /** A point of the section plane; y is measured upwards, x from the section axis. */
  datatype Point = Point(x: real, y: real)

  /** The record stored in a member dictionary: centreline point and wall thickness. */
  datatype Rec = Rec(xm: real, ym: real, thk: real)

  function Max(a: real, b: real): (r: real)
    ensures r >= a && r >= b && (r == a || r == b)
  {
    if a >= b then a else b
  }

  function Min(a: real, b: real): (r: real)
    ensures r <= a && r <= b && (r == a || r == b)
  {
    if a <= b then a else b
  }

  function Sq(a: real): real { a * a }

  /** Squared Euclidean distance between two points. */
  function Dist2(p: Point, q: Point): real
  {
    Sq(p.x - q.x) + Sq(p.y - q.y)
  }

  /** `root` returns a square root of `v` (what Python's `v ** 0.5` does for v >= 0, up to rounding). */
  predicate IsRootOf(root: real -> real, v: real)
  {
    root(v) >= 0.0 && root(v) * root(v) == v
  }
}
