/** The per-element record that a uniform 1D mesh fills in: the element's
    cardinal index, its two endpoint coordinates, the global indices of its
    two nodes and its local 2x2 stiffness matrix. It has no behaviour of its
    own; only the mesh writes it. */
module FEAElement {

  /** A 2x2 matrix; kij is the entry in row i, column j. */
  datatype Matrix2x2 = Matrix2x2(k00: real, k01: real, k10: real, k11: real)

  datatype Element = Element(
    id: int,        // cardinal index of the element
    n1: real,       // global coordinate of the left endpoint
    n2: real,       // global coordinate of the right endpoint
    ind1: int,      // global index of the left node
    ind2: int,      // global index of the right node
    k: Matrix2x2)   // local stiffness matrix
}
