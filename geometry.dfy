/** Points of the digital plane Z^2 and the rectangular domains that bound
    an image, with the one-cell margin the boundary tracer works in. */
module Geometry {

  /** A point of Z^2; `x` is coordinate 0 and `y` coordinate 1. */
  datatype Point = Point(x: int, y: int)

  function Add(p: Point, q: Point): Point {
    Point(p.x + q.x, p.y + q.y)
  }

  function Sub(p: Point, q: Point): Point {
    Point(p.x - q.x, p.y - q.y)
  }

  /** The axis-aligned box [lower, upper] of an image. */
  datatype Domain = Domain(lower: Point, upper: Point)

  /** `p` lies in the closed box of `d`. */
  predicate InDomain(p: Point, d: Domain) {
    d.lower.x <= p.x <= d.upper.x && d.lower.y <= p.y <= d.upper.y
  }

  /** `p` lies in the open box of `d`: strictly between the bounds on both axes. */
  predicate StrictlyInside(p: Point, d: Domain) {
    d.lower.x < p.x < d.upper.x && d.lower.y < p.y < d.upper.y
  }

  /** `p` lies on one of the four border lines of `d`: its x equals the lower
      or the upper x bound, or its y equals the lower or the upper y bound.
      A point of the domain is off all four lines exactly when it lies strictly
      inside the domain. */
  predicate OnBorder(p: Point, d: Domain)
    ensures InDomain(p, d) ==> (!OnBorder(p, d) <==> StrictlyInside(p, d))
    ensures StrictlyInside(p, d) ==> !OnBorder(p, d)
  {
    p.x == d.lower.x || p.x == d.upper.x || p.y == d.lower.y || p.y == d.upper.y
  }

  /** The bounds the Khalimsky space is initialised with: the image domain
      grown by one unit on every side. The open box of these bounds holds
      exactly the points of the image domain, so no point of an object lies
      on the border of the traced space. */
  function KSpaceBounds(d: Domain): (k: Domain)
    ensures forall p :: InDomain(p, d) <==> StrictlyInside(p, k)
  {
    Domain(Sub(d.lower, Point(1, 1)), Add(d.upper, Point(1, 1)))
  }

  /** Every point of the image domain lies strictly inside the margin-extended
      bounds, so no point of an object can touch the traced space's border. */
  lemma DomainInsideKSpace(d: Domain, p: Point)
    requires InDomain(p, d)
    ensures StrictlyInside(p, KSpaceBounds(d))
    ensures !OnBorder(p, KSpaceBounds(d))
  {
  }
}
