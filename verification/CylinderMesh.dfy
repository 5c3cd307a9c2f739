/** The cylinder of MeshCreateCylinder: two caps and a wall over `n` boundary vertices. */
module CylinderMesh {
  import opened MeshTopology

  /** Where a vertex lies; the trigonometric coordinates are not part of this model. */
  datatype Vertex = TopCenter | TopRim(slice: nat) | BottomRim(slice: nat) | BottomCenter

  /** The top rim vertex of slice `i`, and that of the slice after it. */
  function TopIndex(i: int): int {
    1 + 2 * i
  }

  function NextTop(n: nat, i: int): int {
    if i == n - 1 then 1 else TopIndex(i) + 2
  }

  /** Triangle `j` of slice `i`: top cap, two halves of the wall, bottom cap. */
  function SliceTriangle(n: nat, i: nat, j: nat): Triangle {
    var p, q := TopIndex(i), NextTop(n, i);
    if j == 0 then Triangle(0, p, q)
    else if j == 1 then Triangle(p, p + 1, q)
    else if j == 2 then Triangle(p + 1, q + 1, q)
    else Triangle(p + 1, 2 * n + 1, q + 1)
  }

  function Cylinder(n: nat): (mesh: seq<Triangle>)
    ensures |mesh| == 4 * n
  {
    seq(4 * n, t requires 0 <= t < 4 * n => SliceTriangle(n, t / 4, t % 4))
  }

  method MeshCreateCylinder(n: nat) returns (vertices: seq<Vertex>, triangles: seq<Triangle>)
    ensures triangles == Cylinder(n)
    ensures |vertices| == 2 * n + 2
    ensures vertices[0] == TopCenter && vertices[2 * n + 1] == BottomCenter
    ensures forall i :: 0 <= i < n ==> vertices[TopIndex(i)] == TopRim(i) && vertices[TopIndex(i) + 1] == BottomRim(i)
    ensures forall i :: 0 <= i < n ==> vertices[2 * i + 1] == TopRim(i) && vertices[2 * i + 2] == BottomRim(i)
  {
    var numVertices := n * 2 + 2;
    vertices, triangles := [TopCenter], [];
    var index := 1;
    for i := 0 to n
      invariant index == TopIndex(i) && |vertices| == 1 + 2 * i && |triangles| == 4 * i
      invariant vertices[0] == TopCenter
      invariant forall k :: 0 <= k < i ==>
                  vertices[TopIndex(k)] == TopRim(k) && vertices[TopIndex(k) + 1] == BottomRim(k)
      invariant forall t :: 0 <= t < 4 * i ==> triangles[t] == SliceTriangle(n, t / 4, t % 4)
    {
      var nextSliceIndex := if i == n - 1 then 1 else index + 2;
      vertices := vertices + [TopRim(i), BottomRim(i)];
      triangles := triangles + [Triangle(0, index, nextSliceIndex),
                                Triangle(index, index + 1, nextSliceIndex),
                                Triangle(index + 1, nextSliceIndex + 1, nextSliceIndex),
                                Triangle(index + 1, numVertices - 1, nextSliceIndex + 1)];
      index := index + 2;
    }
    vertices := vertices + [BottomCenter];
  }

  /** The four triangles of a slice: cap, two halves of the wall, cap; the last slice goes on at the first. */
  lemma SliceTrianglesAt(n: nat, i: nat)
    requires i < n
    ensures var mesh, p, q := Cylinder(n), 2 * i + 1, if i == n - 1 then 1 else 2 * i + 3;
            && mesh[4 * i] == Triangle(0, p, q) && mesh[4 * i + 1] == Triangle(p, p + 1, q)
            && mesh[4 * i + 2] == Triangle(p + 1, q + 1, q) && mesh[4 * i + 3] == Triangle(p + 1, 2 * n + 1, q + 1)
  {
  }

  // ----- Directed edges by slice, triangle and corner

  function SliceEdge(n: nat, i: nat, j: nat, k: nat): Edge
    requires k < 3
  {
    EdgeAt(SliceTriangle(n, i, j), k)
  }

  function Previous(n: nat, i: int): int {
    if i == 0 then n - 1 else i - 1
  }

  function Following(n: nat, i: int): int {
    if i == n - 1 then 0 else i + 1
  }

  /** The one place a directed edge of the cylinder can come from. */
  function Origin(n: nat, e: Edge): (int, int, int) {
    var (a, b) := e;
    var bottom := 2 * n + 1;
    if a == 0 then ((b - 1) / 2, 0, 0)
    else if b == 0 then (Previous(n, (a - 1) / 2), 0, 2)
    else if b == bottom then ((a - 2) / 2, 3, 0)
    else if a == bottom then (Previous(n, (b - 2) / 2), 3, 1)
    else if a % 2 == 1 && b % 2 == 1 then
      if b == NextTop(n, (a - 1) / 2) then ((a - 1) / 2, 0, 1) else ((b - 1) / 2, 1, 2)
    else if a % 2 == 0 && b % 2 == 0 then
      if b == NextTop(n, (a - 2) / 2) + 1 then ((a - 2) / 2, 2, 0) else ((b - 2) / 2, 3, 2)
    else if a % 2 == 1 then
      if b == a + 1 then ((a - 1) / 2, 1, 0) else ((b - 2) / 2, 2, 2)
    else
      if a == b + 1 then (Previous(n, (b - 1) / 2), 2, 1) else ((a - 2) / 2, 1, 1)
  }

  lemma OriginOfCapEdge(n: nat, i: nat, j: nat, k: nat)
    requires n >= 3 && i < n && (j == 0 || j == 3) && k < 3
    ensures Origin(n, SliceEdge(n, i, j, k)) == (i, j, k)
  {
  }

  lemma OriginOfUpperEdge(n: nat, i: nat, k: nat)
    requires n >= 3 && i < n && k < 3
    ensures Origin(n, SliceEdge(n, i, 1, k)) == (i, 1, k)
  {
  }

  lemma OriginOfLowerEdge(n: nat, i: nat, k: nat)
    requires n >= 3 && i < n && k < 3
    ensures Origin(n, SliceEdge(n, i, 2, k)) == (i, 2, k)
  {
  }

  lemma OriginOfSliceEdge(n: nat, i: nat, j: nat, k: nat)
    requires n >= 3 && i < n && j < 4 && k < 3
    ensures Origin(n, SliceEdge(n, i, j, k)) == (i, j, k)
  {
    if j == 0 || j == 3 {
      OriginOfCapEdge(n, i, j, k);
    } else if j == 1 {
      OriginOfUpperEdge(n, i, k);
    } else {
      OriginOfLowerEdge(n, i, k);
    }
  }

  lemma CylinderIsOriented(n: nat)
    requires n >= 3
    ensures Oriented(Cylinder(n))
  {
    var mesh := Cylinder(n);
    forall s, t, k, m | 0 <= s < |mesh| && 0 <= t < |mesh| && 0 <= k < 3 && 0 <= m < 3
      ensures EdgeAt(mesh[s], k) == EdgeAt(mesh[t], m) ==> s == t && k == m
    {
      OriginOfSliceEdge(n, s / 4, s % 4, k);
      OriginOfSliceEdge(n, t / 4, t % 4, m);
    }
  }

  /** The corner whose directed edge runs the other way. */
  function Twin(n: nat, i: nat, j: nat, k: nat): (int, int, int) {
    if j == 0 then
      if k == 0 then (Previous(n, i), 0, 2) else if k == 1 then (i, 1, 2) else (Following(n, i), 0, 0)
    else if j == 1 then
      if k == 0 then (Previous(n, i), 2, 1) else if k == 1 then (i, 2, 2) else (i, 0, 1)
    else if j == 2 then
      if k == 0 then (i, 3, 2) else if k == 1 then (Following(n, i), 1, 0) else (i, 1, 1)
    else
      if k == 0 then (Previous(n, i), 3, 1) else if k == 1 then (Following(n, i), 3, 0) else (i, 2, 0)
  }

  lemma TwinReverses(n: nat, i: nat, j: nat, k: nat)
    requires i < n && j < 4 && k < 3
    ensures var (i', j', k') := Twin(n, i, j, k);
            && 0 <= i' < n && 0 <= j' < 4 && 0 <= k' < 3
            && SliceEdge(n, i', j', k') == Reverse(SliceEdge(n, i, j, k))
  {
  }

  lemma TwinIsAnEdge(n: nat, t: nat, k: nat)
    requires t < 4 * n && k < 3
    ensures Reverse(EdgeAt(Cylinder(n)[t], k)) in Edges(Cylinder(n))
  {
    TwinReverses(n, t / 4, t % 4, k);
    var (i', j', k') := Twin(n, t / 4, t % 4, k);
    var t' := 4 * i' + j';
    assert t' / 4 == i' && t' % 4 == j';
    assert EdgeAt(Cylinder(n)[t'], k') == Reverse(EdgeAt(Cylinder(n)[t], k));
    EdgeIsMember(Cylinder(n), t', k');
  }

  lemma CylinderIsClosed(n: nat)
    ensures Closed(Cylinder(n))
  {
    var mesh := Cylinder(n);
    forall e | e in Edges(mesh)
      ensures Reverse(e) in Edges(mesh)
    {
      EdgesMembers(mesh, e);
      var t, k :| 0 <= t < |mesh| && 0 <= k < 3 && EdgeAt(mesh[t], k) == e;
      TwinIsAnEdge(n, t, k);
    }
  }

  lemma CylinderIndicesAreValid(n: nat)
    requires n != 1
    ensures ValidIndices(Cylinder(n), 2 * n + 2)
  {
  }

  /** The mesh is a closed, consistently wound surface from three boundary vertices on, and never with one or two. */
  lemma CylinderIsSurfaceIff(n: nat)
    ensures Oriented(Cylinder(n)) && Closed(Cylinder(n)) && ValidIndices(Cylinder(n), 2 * n + 2)
            <==> n == 0 || n >= 3
  {
    var mesh := Cylinder(n);
    CylinderIsClosed(n);
    if n >= 3 {
      CylinderIsOriented(n);
      CylinderIndicesAreValid(n);
    } else if n == 0 {
      assert mesh == [];
    } else if n == 1 {
      assert mesh[0] == SliceTriangle(1, 0, 0);
      assert EdgeAt(mesh[0], 1) == (1, 1);
    } else {
      assert mesh[0] == SliceTriangle(2, 0, 0) && mesh[5] == SliceTriangle(2, 1, 1);
      assert EdgeAt(mesh[0], 1) == EdgeAt(mesh[5], 2) == (1, 3);
    }
  }

  /** Euler's formula of the sphere: V - E + F = 2. */
  lemma CylinderEuler(n: nat)
    requires n >= 3
    ensures (2 * n + 2) - |Undirected(Cylinder(n))| + |Cylinder(n)| == 2
  {
    var mesh := Cylinder(n);
    CylinderIsSurfaceIff(n);
    forall e | e in Edges(mesh)
      ensures e.0 != e.1
    {
      EdgesMembers(mesh, e);
    }
    ClosedSurfaceEdgeCount(mesh);
  }
}
