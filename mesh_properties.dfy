/** Properties of the uniform mesh that relate several of its queries:
    exactly which inputs the source's assertions admit, the stiffness rule
    in the source's own terms, the two frame maps as inverses, what the
    "derivatives" are the slopes of, and what the interpolant reproduces. */
module MeshProperties {
  import opened FEAElement
  import opened FEA

  /** The elements tile [0, 1]: the first starts at 0, the last ends at 1
      (on every mesh, a one-element mesh included), and each element but
      the last ends where the next one starts. */
  lemma MeshSpansUnitInterval(m: Mesh, e: int)
    requires m.Valid()
    ensures m.ElementCoordinates(0).0 == 0.0
    ensures m.ElementCoordinates(m.numElements - 1).1 == 1.0
    ensures 0 <= e < m.numElements - 1 ==>
              m.ElementCoordinates(e).1 == m.ElementCoordinates(e + 1).0
  {
  }

  /** The stiffness matrix of an initialized element, in the terms the
      source computes it: k00 is 1/h, the off-diagonal entries agree, the
      last three entries vanish exactly when the right endpoint is 1 (which
      happens exactly for the last element) and are -1/h, -1/h, 1/h
      otherwise. */
  lemma StiffnessRule(m: Mesh, element: Element, elementId: int)
    requires m.Valid()
    requires m.InitializedAs(element, elementId)
    ensures var h := element.n2 - element.n1;
            h == m.elementWidth &&
            element.k.k00 == 1.0 / h &&
            element.k.k01 == element.k.k10 &&
            (element.n2 != 1.0 ==>
               element.k.k01 == -1.0 / h && element.k.k11 == 1.0 / h)
    ensures (element.k.k01 == 0.0 && element.k.k10 == 0.0 && element.k.k11 == 0.0)
            <==> element.n2 == 1.0
    ensures element.n2 == 1.0 <==> elementId == m.numElements - 1
  {
  }

  /** LocateX's precondition is exactly the set of points for which the
      source's two range assertions on the located element hold. */
  lemma LocateXDomain(m: Mesh, x: real)
    requires m.Valid()
    ensures var located := (x / m.elementWidth).Floor;
            (x == 1.0 || 0 <= located < m.numElements) <==> 0.0 <= x <= 1.0
  {
  }

  /** MapGlobalToLocalFrame's precondition is exactly the set of inputs that
      pass both the source's consistency assertion (the element is the
      floor of x / width or the last one) and its range assertion on the
      reference coordinate. */
  lemma MapGlobalToLocalFrameDomain(m: Mesh, x: real, elementId: int)
    requires m.Valid()
    ensures var located := (x / m.elementWidth).Floor;
            var refCoord := (x / m.elementWidth - elementId as real) * 2.0 - 1.0;
            ((elementId == located || elementId == m.numElements - 1) && -1.0 <= refCoord <= 1.0)
            <==> (elementId == located || (elementId == m.numElements - 1 && x == 1.0))
  {
  }

  /** The located element of x, once initialized, has x between its
      endpoints and its nodes are the nodes around x. */
  lemma LocatedElementContainsX(m: Mesh, x: real, element: Element)
    requires m.Valid()
    requires 0.0 <= x <= 1.0
    requires m.InitializedAs(element, m.LocateX(x))
    ensures element.n1 <= x <= element.n2
    ensures 0 <= element.ind1 && element.ind2 == element.ind1 + 1 < m.numNodes
  {
  }

  /** Global to local and back returns the point. */
  lemma GlobalLocalRoundTrip(m: Mesh, x: real)
    requires m.Valid()
    requires 0.0 <= x <= 1.0
    ensures var e := m.LocateX(x);
            var coords := m.ElementCoordinates(e);
            m.MapLocalToGlobalFrame(m.MapGlobalToLocalFrame(x, e), coords.0, coords.1) == x
  {
  }

  /** Local to global and back returns the reference coordinate, and the
      point lands in the element it came from; the right end refCoord == 1
      belongs to the element only for the last one (elsewhere it is the
      next element's left end). */
  lemma LocalGlobalRoundTrip(m: Mesh, elementId: int, refCoord: real)
    requires m.Valid()
    requires 0 <= elementId < m.numElements
    requires -1.0 <= refCoord < 1.0 || (refCoord == 1.0 && elementId == m.numElements - 1)
    ensures var coords := m.ElementCoordinates(elementId);
            var x := m.MapLocalToGlobalFrame(refCoord, coords.0, coords.1);
            0.0 <= x <= 1.0 && m.LocateX(x) == elementId &&
            m.MapGlobalToLocalFrame(x, elementId) == refCoord
  {
  }

  /** The derivative pair does not depend on refCoord, and it is the slope of
      the two basis functions as functions of the global coordinate within
      one element; with respect to refCoord that slope would be -1/2 and 1/2,
      which the pair never equals. */
  lemma DerivativesAreGlobalSlopes(m: Mesh, x: real, y: real, r1: real, r2: real)
    requires m.Valid()
    requires 0.0 <= x <= 1.0 && 0.0 <= y <= 1.0
    requires m.LocateX(x) == m.LocateX(y)
    ensures m.ShapeFunctionDerivatives(r1) == m.ShapeFunctionDerivatives(r2)
    ensures var e := m.LocateX(x);
            var nx := m.ShapeFunctionValues(m.MapGlobalToLocalFrame(x, e));
            var ny := m.ShapeFunctionValues(m.MapGlobalToLocalFrame(y, e));
            var slopes := m.ShapeFunctionDerivatives(r1);
            ny.0 - nx.0 == slopes.0 * (y - x) && ny.1 - nx.1 == slopes.1 * (y - x)
    ensures var v1, v2 := m.ShapeFunctionValues(r1), m.ShapeFunctionValues(r2);
            v2.1 - v1.1 == (r2 - r1) / 2.0 &&
            m.ShapeFunctionDerivatives(r1).1 != 0.5
  {
  }

  /** The element sequence has, at every element id, the node indices that
      InitializeElement assigns (ind1 == id, ind2 == id + 1); a sequence
      built by calling InitializeElement for every id has them. */
  ghost predicate NodeIndicesAsInitialized(m: Mesh, elements: seq<Element>) {
    |elements| >= m.numElements &&
    forall e :: 0 <= e < m.numElements ==> elements[e].ind1 == e && elements[e].ind2 == e + 1
  }

  /** Elements built by InitializeElement for every element id carry the
      node indices the interpolation lemmas below assume. */
  lemma InitializedElementsHaveNodeIndices(m: Mesh, elements: seq<Element>)
    requires m.Valid()
    requires |elements| >= m.numElements
    requires forall e :: 0 <= e < m.numElements ==> m.InitializedAs(elements[e], e)
    ensures NodeIndicesAsInitialized(m, elements)
  {
  }

  /** At a node, the interpolant of nodal values, with elements numbered as
      InitializeElement numbers them, returns that node's value. */
  lemma ApproxValueAtNode(m: Mesh, i: int, d: seq<real>, elements: seq<Element>)
    requires m.Valid()
    requires 0 <= i < m.numNodes
    requires |d| >= m.numNodes
    requires NodeIndicesAsInitialized(m, elements)
    ensures 0.0 <= m.NodeCoordinate(i) <= 1.0
    ensures m.ApproxValue(m.NodeCoordinate(i), d, elements) == d[i]
  {
    var n := m.numElements as real;
    var w := m.elementWidth;
    var x := m.NodeCoordinate(i);
    assert w * n == 1.0;
    assert x == (i as real) * w;
    var e := m.LocateX(x);
    var t := (x - (e as real) * w) * n;
    if i == m.numElements {
      assert x == 1.0 by {
        assert (i as real) * w == w * n;
      }
      assert e == i - 1;
      assert t == 1.0 by {
        assert x - (e as real) * w == w;
      }
    } else {
      assert x / w == i as real by {
        assert x / w * w == (i as real) * w;
      }
      assert e == i;
      assert t == 0.0;
    }
  }

  /** Interpolating the nodal values of an affine field a + b x, with
      elements numbered as InitializeElement numbers them, gives back the
      field at every point of [0, 1]. */
  lemma ApproxValueReproducesAffine(m: Mesh, a: real, b: real, d: seq<real>, elements: seq<Element>, x: real)
    requires m.Valid()
    requires 0.0 <= x <= 1.0
    requires |d| >= m.numNodes
    requires forall i :: 0 <= i < m.numNodes ==> d[i] == a + b * m.NodeCoordinate(i)
    requires NodeIndicesAsInitialized(m, elements)
    ensures m.ApproxValue(x, d, elements) == a + b * x
  {
  }
}
