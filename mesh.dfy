/** A uniform mesh of the unit interval [0, 1] into n linear elements of
    width 1/n, with its geometry, point-location, reference-frame and
    shape-function queries. Coordinates are exact reals. */
module FEA {
  import opened FEAElement

  /** The uniform 1D mesh. Its four fields are set by the constructor and
      never written again, so they are `const`; every query is a function
      (nothing can change the mesh) except InitializeElement, which builds
      its Element step by step. */
  class Mesh {
    const numNodes: int
    const numElements: int
    const elementWidth: real
    const boundaryNodes: seq<int>

    /** What construction establishes and what every query relies on. */
    ghost predicate Valid() {
      numElements >= 1 &&
      numNodes == numElements + 1 &&
      elementWidth == 1.0 / (numElements as real) &&
      boundaryNodes == [numNodes]
    }

    /** Splits [0, 1] into n elements. The single boundary-node entry is the
        node count itself, one past the last node index. */
    constructor (n: int)
      requires n >= 1
      ensures Valid()
      ensures numElements == n && numNodes == n + 1
      ensures elementWidth * (n as real) == 1.0
      ensures |boundaryNodes| == 1 && boundaryNodes[0] == numNodes
    {
      numNodes := n + 1;
      numElements := n;
      elementWidth := 1.0 / (n as real);
      var nodes := seq(1, _ => 0);
      nodes := nodes[0 := n + 1];
      boundaryNodes := nodes;
    }

    function TotalNumElements(): (count: int)
      requires Valid()
      ensures count >= 1
      ensures (count as real) * elementWidth == 1.0
    {
      numElements
    }

    function TotalNumNodes(): (count: int)
      requires Valid()
      ensures count == TotalNumElements() + 1
    {
      numNodes
    }

    function GetElementWidth(): (width: real)
      requires Valid()
      ensures 0.0 < width <= 1.0
      ensures width * (TotalNumElements() as real) == 1.0
    {
      elementWidth
    }

    /** The coordinate of node nodeId. Only the upper bound is a
        precondition; a negative id yields a point left of 0. */
    function NodeCoordinate(nodeId: int): (coord: real)
      requires Valid()
      requires nodeId < numNodes
      ensures coord == (nodeId as real) / (numElements as real)
      ensures coord <= 1.0
      ensures 0 <= nodeId ==> 0.0 <= coord
    {
      (nodeId as real) * elementWidth
    }

    /** The left and right endpoints of element elementId. */
    function ElementCoordinates(elementId: int): (coords: (real, real))
      requires Valid()
      requires elementId < numElements
      ensures coords.0 == (elementId as real) / (numElements as real)
      ensures coords.1 == ((elementId + 1) as real) / (numElements as real)
      ensures coords.1 - coords.0 == elementWidth
      ensures 0 <= elementId ==> 0.0 <= coords.0 < coords.1 <= 1.0
    {
      (NodeCoordinate(elementId), NodeCoordinate(elementId + 1))
    }

    /** The element that InitializeElement(elementId) produces, stated in
        terms of the mesh: endpoints elementId/n and (elementId+1)/n, nodes
        elementId and elementId+1, and a stiffness matrix whose last three
        entries are zero exactly for the last element. */
    ghost predicate InitializedAs(element: Element, elementId: int)
      requires Valid()
    {
      var n := numElements as real;
      element.id == elementId &&
      element.ind1 == elementId && element.ind2 == elementId + 1 &&
      element.n1 == (elementId as real) / n &&
      element.n2 == ((elementId + 1) as real) / n &&
      element.k == if elementId == numElements - 1
                   then Matrix2x2(n, 0.0, 0.0, 0.0)
                   else Matrix2x2(n, -n, -n, n)
    }

    /** Fills in element elementId: its endpoints, its node indices and its
        local stiffness matrix, whose off-diagonal and second diagonal
        entries are zeroed when the right endpoint is exactly 1. */
    method InitializeElement(elementId: int) returns (element: Element)
      requires Valid()
      requires elementId < numElements
      ensures InitializedAs(element, elementId)
    {
      var coords := ElementCoordinates(elementId);
      var n1, n2 := coords.0, coords.1;
      var h := n2 - n1;
      var val := if n2 == 1.0 then 0.0 else 1.0;
      element := Element(elementId, n1, n2, elementId, elementId + 1,
                         Matrix2x2(1.0 / h, -val / h, -val / h, val / h));
    }

    /** The element containing x: floor(x / width), except that x == 1 is
        placed in the last element. */
    function LocateX(x: real): (elementId: int)
      requires Valid()
      requires 0.0 <= x <= 1.0
      ensures 0 <= elementId < numElements
      ensures x == 1.0 ==> elementId == numElements - 1
      ensures x < 1.0 ==> elementId == (x / elementWidth).Floor
      ensures x < 1.0 ==> (elementId as real) * elementWidth <= x < ((elementId + 1) as real) * elementWidth
    {
      var located := (x / elementWidth).Floor;
      FloorBracket(this, x);
      if x == 1.0 then numElements - 1 else located
    }

    /** The reference coordinate of x in element elementId. The precondition
        is exactly the set of inputs on which the source's two assertions
        hold (see MeshProperties.MapGlobalToLocalFrameDomain). */
    function MapGlobalToLocalFrame(x: real, elementId: int): (refCoord: real)
      requires Valid()
      requires elementId == (x / elementWidth).Floor || (elementId == numElements - 1 && x == 1.0)
      ensures -1.0 <= refCoord <= 1.0
      ensures MapLocalToGlobalFrame(refCoord, (elementId as real) * elementWidth,
                                    ((elementId + 1) as real) * elementWidth) == x
    {
      (x / elementWidth - elementId as real) * 2.0 - 1.0
    }

    /** The linear Lagrange basis on [-1, 1]. */
    function ShapeFunctionValues(refCoord: real): (values: (real, real))
      ensures values.0 + values.1 == 1.0
      ensures values.1 - values.0 == refCoord
      ensures -1.0 <= refCoord <= 1.0 ==> 0.0 <= values.0 <= 1.0 && 0.0 <= values.1 <= 1.0
    {
      ((1.0 - refCoord) / 2.0, (1.0 + refCoord) / 2.0)
    }

    /** The pair (-n, n), whatever refCoord is. It equals the slope of the
        two basis functions with respect to the global coordinate, not with
        respect to refCoord (see MeshProperties.DerivativesAreGlobalSlopes). */
    function ShapeFunctionDerivatives(refCoord: real): (derivatives: (real, real))
      requires Valid()
      ensures derivatives.0 == -1.0 / elementWidth
      ensures derivatives.1 == 1.0 / elementWidth
    {
      (-numElements as real, numElements as real)
    }

    /** The finite-element interpolant of the nodal values d at x, through the
        nodes of the element that contains x. */
    function ApproxValue(x: real, d: seq<real>, elements: seq<Element>): (value: real)
      requires Valid()
      requires 0.0 <= x <= 1.0
      requires LocateX(x) < |elements|
      requires 0 <= elements[LocateX(x)].ind1 < |d| && 0 <= elements[LocateX(x)].ind2 < |d|
      ensures var e := elements[LocateX(x)];
              value == d[e.ind1] + (d[e.ind2] - d[e.ind1]) * ((x - (LocateX(x) as real) * elementWidth) * (numElements as real))
      ensures var e := elements[LocateX(x)];
              (d[e.ind1] <= value <= d[e.ind2]) || (d[e.ind2] <= value <= d[e.ind1])
    {
      var elementId := LocateX(x);
      var refCoord := MapGlobalToLocalFrame(x, elementId);
      var values := ShapeFunctionValues(refCoord);
      var e := elements[elementId];
      InterpolantForm(this, x, elementId, refCoord, d[e.ind1], d[e.ind2]);
      d[e.ind1] * values.0 + d[e.ind2] * values.1
    }

    /** The point of element [n1, n2] with reference coordinate refCoord. */
    function MapLocalToGlobalFrame(refCoord: real, n1: real, n2: real): (x: real)
      ensures refCoord == -1.0 ==> x == n1
      ensures refCoord == 1.0 ==> x == n2
      ensures n1 <= n2 && -1.0 <= refCoord <= 1.0 ==> n1 <= x <= n2
    {
      Interpolate(n1, n2, refCoord);
      ((1.0 - refCoord) * n1 + (1.0 + refCoord) * n2) / 2.0
    }
  }

  // Arithmetic facts the queries above rely on.

  /** The floor of x / width brackets x between two consecutive nodes. */
  lemma FloorBracket(m: Mesh, x: real)
    requires m.Valid()
    ensures var f := (x / m.elementWidth).Floor;
            (f as real) * m.elementWidth <= x < ((f + 1) as real) * m.elementWidth
    ensures 0.0 <= x < 1.0 ==> 0 <= (x / m.elementWidth).Floor < m.numElements
  {
  }

  /** The shape-function combination in ApproxValue is the linear
      interpolant in x, and lies between the two nodal values. */
  lemma InterpolantForm(m: Mesh, x: real, elementId: int, refCoord: real, left: real, right: real)
    requires m.Valid()
    requires -1.0 <= refCoord <= 1.0
    requires refCoord == (x / m.elementWidth - elementId as real) * 2.0 - 1.0
    ensures var v := left * ((1.0 - refCoord) / 2.0) + right * ((1.0 + refCoord) / 2.0);
            v == left + (right - left) * ((x - (elementId as real) * m.elementWidth) * (m.numElements as real)) &&
            ((left <= v <= right) || (right <= v <= left))
  {
    ReferenceFraction(x, m.elementWidth, m.numElements as real, elementId as real);
    Interpolate(left, right, refCoord);
  }

  /** The shape-function combination of two values in the reference frame. */
  lemma Interpolate(left: real, right: real, refCoord: real)
    ensures var v := left * ((1.0 - refCoord) / 2.0) + right * ((1.0 + refCoord) / 2.0);
            v == ((1.0 - refCoord) * left + (1.0 + refCoord) * right) / 2.0 &&
            v == left + (right - left) * ((1.0 + refCoord) / 2.0) &&
            (-1.0 <= refCoord <= 1.0 ==> (left <= v <= right) || (right <= v <= left))
  {
    var a, b := (1.0 - refCoord) / 2.0, (1.0 + refCoord) / 2.0;
    assert left * a == left - left * b;
    if -1.0 <= refCoord <= 1.0 {
      ConvexCombination(left, right, a, b);
    }
    assert left * a == (1.0 - refCoord) * left / 2.0;
    assert right * b == (1.0 + refCoord) * right / 2.0;
  }

  /** (1 + refCoord) / 2 is x's fractional position within its element. */
  lemma ReferenceFraction(x: real, w: real, n: real, e: real)
    requires n > 0.0 && w * n == 1.0
    ensures (1.0 + (x / w - e) * 2.0 - 1.0) / 2.0 == (x - e * w) * n
  {
  }

  /** A convex combination of two values lies between them. */
  lemma ConvexCombination(left: real, right: real, a: real, b: real)
    requires 0.0 <= b <= 1.0 && a + b == 1.0
    ensures var v := left * a + right * b;
            v == left + (right - left) * b &&
            ((left <= v <= right) || (right <= v <= left))
  {
    var c := right - left;
    var v := left * a + right * b;
    assert v - left == c * b by {
      assert left * a == left - left * b;
    }
    assert right - v == c * a by {
      assert right * b == right - right * a;
    }
    if c >= 0.0 {
      NonnegativeProduct(c, b);
      NonnegativeProduct(c, a);
    } else {
      NonnegativeProduct(-c, b);
      NonnegativeProduct(-c, a);
      assert (-c) * b == -(c * b);
      assert (-c) * a == -(c * a);
    }
  }

  lemma NonnegativeProduct(a: real, b: real)
    requires 0.0 <= a && 0.0 <= b
    ensures 0.0 <= a * b
  {
  }
}
