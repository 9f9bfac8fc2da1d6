# Uniform 1D finite-element mesh (`FEA::Mesh`)

This project models the uniform one-dimensional finite-element mesh of the
FiniteElement repository and proves properties of it in Dafny. The mesh
splits the unit interval [0, 1] into `n` linear elements of width `1/n`. It
offers these operations:

- node and element coordinates;
- element initialisation: node indices, endpoints and a 2x2 local stiffness
  matrix;
- point location;
- the affine maps between an element and the reference interval [-1, 1];
- the linear shape functions and their nominal derivatives;
- interpolation of nodal values at a point.

Files:

- `element.dfy`: module `FEAElement`. It holds the `Element` record (`id`,
  `n1`, `n2`, `ind1`, `ind2`, `k`) and the 2x2 matrix `Matrix2x2`.
  `Element.hh` is not part of this model. The fields are taken from what
  `Mesh.cc:90-102` writes.
- `mesh.dfy`: module `FEA`, with class `Mesh` and the arithmetic helper
  lemmas its queries rely on.
  - The four private fields of `Mesh.hh:87-99` are `const`. The constructor
    sets them and nothing else can write them, which is what the header's
    private, constructor-only fields give.
  - Every query declared `const` in `Mesh.hh:32-80` except
    `initializeElement` is a Dafny function, so it cannot change the mesh.
    `initializeElement` (`Mesh.hh:49-50`) is the method `InitializeElement`,
    which has no `modifies` clause, so it cannot change the mesh either.
  - `ApproxValue` is a function too. It is declared without `const` in
    `Mesh.hh:83-85`, but it writes nothing. It takes `d` and `elements` as
    values, so it leaves them unchanged.
  - `InitializeElement` fills its Element step by step in the source. It is
    a method that computes the endpoints, `h` and `val`, then builds the
    record.
  - The three `std::array<double,2>` results are Dafny pairs `(real, real)`:
    exactly two values.
- `mesh_properties.dfy`: module `MeshProperties`, lemmas that relate several
  queries.
- `scenarios.dfy`: module `MeshScenarios`, two client methods for concrete
  meshes. One has `n = 4`; the other has `n = 2` with `d = [0, 5, 10]`.

Coordinates are exact reals, not IEEE doubles. So the width is exactly
`1/n`, and the maps, the partition of unity and the round trips are exact
identities. Every `assert` in the source is a `requires` or an `ensures`
here. Except for `ApproxValue`, each precondition is the set of inputs on
which the source's assertions hold, and no smaller. For `LocateX` and
`MapGlobalToLocalFrame` a lemma proves that equivalence. `ApproxValue` also
requires the located element and its two node indices to be in range, which
the source indexes without a check (see "## Left out").

The source's quirks are reproduced as written:

- The one boundary-node entry equals `num_nodes`, which is one past the last
  node index.
- The stiffness matrix of the element whose right end is exactly 1 has only
  its `k00` entry non-zero.
- `ShapeFunctionDerivatives` returns `(-n, n)` whatever its argument. The
  pair is the slope of the basis functions in the global coordinate, not in
  the reference coordinate. `MeshProperties.DerivativesAreGlobalSlopes`
  proves both facts.

Two bounds follow the code exactly:

- `Mesh.cc:55` asserts only the upper bound on `node_id`. So
  `NodeCoordinate` requires only `nodeId < numNodes`, and it promises
  non-negative coordinates only for non-negative ids. `ElementCoordinates`
  is the same (`Mesh.cc:66`).
- `Mesh.cc:17-27` has no guard for `n <= 0`. The model requires `n >= 1`
  (see below).

The two interpolation lemmas, `ApproxValueAtNode` and
`ApproxValueReproducesAffine`, assume only that element `e` has node
indices `e` and `e+1` (`NodeIndicesAsInitialized`). Those are the only
fields of an element that `ApproxValue` reads, and `InitializeElement`
assigns exactly these indices.

## Model

| member | source | states |
|---|---|---|
| `FEA.Mesh.constructor` | Mesh.cc:17-27 | for `n >= 1`: `n` elements, `n + 1` nodes, width times `n` equals 1, and a boundary-node list with exactly one entry, equal to the node count |
| `FEA.Mesh.TotalNumElements` | Mesh.cc:31-34 | the element count is at least 1 and is the reciprocal of the element width |
| `FEA.Mesh.TotalNumNodes` | Mesh.cc:38-41 | the node count is the element count plus one |
| `FEA.Mesh.GetElementWidth` | Mesh.cc:45-48 | the width lies in (0, 1] and times the element count gives 1 |
| `FEA.Mesh.NodeCoordinate` | Mesh.cc:52-59 | for every id below the node count (the only bound the source asserts), the coordinate is `id / n`; it is at most 1, and at least 0 when the id is non-negative |
| `FEA.Mesh.ElementCoordinates` | Mesh.cc:63-77 | the endpoints are `e/n` and `(e+1)/n`, they differ by exactly the width, and for `e >= 0` they lie in [0, 1] in increasing order |
| `FEA.Mesh.InitializeElement` | Mesh.cc:81-103 | the element has `id == e`, nodes `e` and `e+1`, endpoints `e/n` and `(e+1)/n`, and stiffness `[[n,-n],[-n,n]]`, or `[[n,0],[0,0]]` exactly when `e` is the last element |
| `FEA.Mesh.LocateX` | Mesh.cc:108-120 | for `x` in [0, 1] the result is a valid element id; `x == 1` gives the last element; any other `x` gives `floor(x/width)` with `e*width <= x < (e+1)*width` |
| `FEA.Mesh.MapGlobalToLocalFrame` | Mesh.cc:125-145 | when the element id is `floor(x/width)`, or is the last element with `x == 1`, the reference coordinate is in [-1, 1] and the inverse map with that element's endpoints gives back `x` |
| `FEA.Mesh.ShapeFunctionValues` | Mesh.cc:150-155 | the two values sum to 1 (partition of unity), their difference reproduces the reference coordinate, and both lie in [0, 1] on [-1, 1] |
| `FEA.Mesh.ShapeFunctionDerivatives` | Mesh.cc:160-166 | the pair is `(-1/width, 1/width)`, which is `(-n, n)`, for every argument |
| `FEA.Mesh.ApproxValue` | Mesh.cc:170-185 | the value is the linear interpolant in `x` between the nodal values of the located element's two nodes, and lies between those two values |
| `FEA.Mesh.MapLocalToGlobalFrame` | Mesh.cc:190-196 | -1 maps to `n1`, 1 maps to `n2`, and [-1, 1] maps into [`n1`, `n2`] |
| `MeshProperties.MeshSpansUnitInterval` | Mesh.cc:63-77 | on every mesh, a one-element mesh included, the first element starts at 0 and the last ends at 1; each element but the last ends where the next one starts |
| `MeshProperties.StiffnessRule` | Mesh.cc:96-102 | for an initialized element: `h` equals the width, `k00 == 1/h`, `k01 == k10`, and `k01`, `k10`, `k11` are all zero exactly when `n2 == 1`, otherwise `-1/h`, `-1/h`, `1/h`; and `n2 == 1` exactly for the last element |
| `MeshProperties.LocateXDomain` | Mesh.cc:112-119 | the source's range assertions on the located element hold exactly for `x` in [0, 1] |
| `MeshProperties.MapGlobalToLocalFrameDomain` | Mesh.cc:130-144 | the consistency assertion and the reference-range assertion hold together exactly when the id is `floor(x/width)`, or is the last element with `x == 1` |
| `MeshProperties.LocatedElementContainsX` | Mesh.cc:81-120 | the initialized located element of `x` has `x` between its endpoints, and its two node indices are consecutive valid nodes |
| `MeshProperties.GlobalLocalRoundTrip` | Mesh.cc:190-196 | mapping `x` into its located element's reference frame and back gives `x` |
| `MeshProperties.LocalGlobalRoundTrip` | Mesh.cc:125-145 | mapping a reference coordinate of element `e` to the global frame gives a point in [0, 1] that lies in element `e` and maps back to the same reference coordinate; `refCoord == 1` is included only for the last element |
| `MeshProperties.DerivativesAreGlobalSlopes` | Mesh.cc:160-166 | the derivative pair does not depend on its argument, and it is the slope of the two basis values in the global coordinate within one element; the slope in the reference coordinate is 1/2, which the pair never equals |
| `MeshProperties.InitializedElementsHaveNodeIndices` | Mesh.cc:81-103 | a sequence holding, at every element id, the element `InitializeElement` produces for that id has node indices `e` and `e+1` everywhere, which is what the interpolation lemmas assume |
| `MeshProperties.ApproxValueAtNode` | Mesh.cc:170-185 | with elements numbered as `InitializeElement` numbers them, interpolating at node `i`'s coordinate returns `d[i]` |
| `MeshProperties.ApproxValueReproducesAffine` | Mesh.cc:170-185 | with nodal values of an affine field `a + b*x`, the interpolant equals `a + b*x` at every point of [0, 1] |

## Left out

- IEEE double rounding. The model uses exact reals. The exact comparisons
  `element.n2 == 1.` (`Mesh.cc:98`) and `x == 1.` (`Mesh.cc:113`) can come
  out differently in doubles; for example, `49 * (1./49)` is not exactly
  `1.0`. The floor in `locateX` can also land one element off near a node.
- Integer width. `int` is unbounded here, so `n + 1` at the largest 32-bit
  `n` does not overflow.
- FEA.Mesh.constructor: requires `n >= 1`. The source has no guard. For
  `n == 0`, `1./n` is an infinity, which a real cannot represent. For
  `n < 0`, the width is negative and no mesh invariant holds.
- FEA.Mesh.ApproxValue: requires the located element id to be below
  `|elements|` and its `ind1`, `ind2` to be below `|d|`. `Mesh.cc:182-184`
  indexes `elements` and `d` with unchecked `operator[]`, so out-of-range
  indices are undefined behaviour there, which the model does not
  represent.
- Release builds. There, `assert` is compiled out and out-of-range ids run
  unchecked. The model treats every assertion as a contract.
- `Functions.hh` and `Helpers.hh`. Each only declares `int factorial(int n)`,
  with no body and no caller.
- The `<iostream>` include (`Mesh.cc:10`). Nothing uses it.
