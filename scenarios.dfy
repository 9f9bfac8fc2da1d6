/** Client methods over two concrete meshes. */
module MeshScenarios {
  import opened FEAElement
  import opened FEA

  /** Four elements of width 1/4: 0.6 lies in element 2, which spans
      [0.5, 0.75]; element 2 has the full stiffness stencil and element 3,
      whose right end is 1, has only its k00 entry. */
  method FourElementMesh() {
    var m := new Mesh(4);
    assert m.GetElementWidth() == 0.25;
    assert m.LocateX(0.6) == 2;
    assert m.ElementCoordinates(2) == (0.5, 0.75);
    var inner := m.InitializeElement(2);
    assert inner.k == Matrix2x2(4.0, -4.0, -4.0, 4.0);
    var last := m.InitializeElement(3);
    assert last.k == Matrix2x2(4.0, 0.0, 0.0, 0.0);
  }

  /** Two elements and nodal values 0, 5, 10: the interpolant at 0.75 is
      halfway between the values at nodes 1 and 2. */
  method TwoElementInterpolation() {
    var m := new Mesh(2);
    var first := m.InitializeElement(0);
    var second := m.InitializeElement(1);
    var d := [0.0, 5.0, 10.0];
    assert m.LocateX(0.75) == 1;
    assert m.ApproxValue(0.75, d, [first, second]) == 7.5;
  }
}
