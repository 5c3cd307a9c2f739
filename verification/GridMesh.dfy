/**
 The two grid generators.  Both cut every cell of a vertex grid into two triangles; they
 differ in the direction of the diagonal and in where the vertices lie.  Borders marked by
 the third coordinate are not part of this model.
 */
module GridMesh {
  import opened MeshTopology
  import opened RowOrder

  datatype Style = Pixels | Hex

  type Point = (real, real)

  /** The number of the vertex (x, y), with `nx` vertices in a row. */
  function Index(nx: nat, x: nat, y: nat): nat {
    RowStart(nx, y) + x
  }

  /** Hex rows with an even number have their diagonal the other way round. */
  predicate Flipped(style: Style, y: int) {
    style.Hex? && y % 2 == 0
  }

  function CellTriangle(style: Style, nx: nat, x: nat, y: nat, t: nat): Triangle {
    var a := Index(nx, x, y);
    if Flipped(style, y) then
      if t == 0 then Triangle(a, a + 1, a + nx) else Triangle(a + 1, a + nx + 1, a + nx)
    else
      if t == 0 then Triangle(a, a + 1, a + nx + 1) else Triangle(a, a + nx + 1, a + nx)
  }

  /** The first `k` cells of row `y`. */
  function Row(style: Style, nx: nat, y: nat, k: nat): (mesh: seq<Triangle>)
    ensures |mesh| == 2 * k
  {
    if k == 0 then []
    else Row(style, nx, y, k - 1) + [CellTriangle(style, nx, k - 1, y, 0), CellTriangle(style, nx, k - 1, y, 1)]
  }

  function Cells(vertices: nat): nat {
    if vertices == 0 then 0 else vertices - 1
  }

  /** The first `r` rows of cells. */
  function Rows(style: Style, nx: nat, r: nat): seq<Triangle> {
    if r == 0 then [] else Rows(style, nx, r - 1) + Row(style, nx, r - 1, Cells(nx))
  }

  function Grid(style: Style, nx: nat, ny: nat): seq<Triangle> {
    Rows(style, nx, Cells(ny))
  }

  // ----- Vertex positions

  function Clamp(v: real, low: real, high: real): real {
    if v < low then low else if v > high then high else v
  }

  /** Pixel centers with one clamped vertex on either side; a width of zero has only those two. */
  function PixelCenter(x: nat, width: nat): real {
    if width == 0 then (if x == 0 then 0.0 else 1.0)
    else Clamp((x as real - 0.5) * (1.0 / width as real), 0.0, 1.0)
  }

  function StepOf(n: nat): real {
    if n == 0 then 0.0 else 1.0 / n as real
  }

  /** Odd rows are shifted by half a step. */
  function HexX(x: nat, y: nat, stepX: real): real {
    if y % 2 == 0 then x as real * stepX else x as real * stepX + 0.5 * stepX
  }

  function HexY(y: nat, stepY: real): real {
    y as real * stepY
  }

  /** Where the vertices of a grid lie. */
  type Layout = (nat, nat) -> Point

  function Upright(fx: nat -> real, fy: nat -> real): Layout {
    (x: nat, y: nat) => (fx(x), fy(y))
  }

  function Slanted(stepX: real, stepY: real): Layout {
    (x: nat, y: nat) => (HexX(x, y, stepX), HexY(y, stepY))
  }

  function PixelCenters(width: nat): nat -> real {
    (x: nat) => PixelCenter(x, width)
  }

  function LayoutOf(style: Style, width: nat, height: nat): Layout {
    match style
    case Pixels => Upright(PixelCenters(width), PixelCenters(height))
    case Hex => Slanted(StepOf(width), StepOf(height))
  }

  function VertexRow(layout: Layout, y: nat, k: nat): (row: seq<Point>)
    ensures |row| == k
  {
    seq(k, x requires 0 <= x < k => layout(x, y))
  }

  function VertexRows(layout: Layout, nx: nat, r: nat): (rows: seq<Point>)
    ensures |rows| == RowStart(nx, r)
  {
    if r == 0 then [] else VertexRows(layout, nx, r - 1) + VertexRow(layout, r - 1, nx)
  }

  // ----- What the loops have produced when they are at vertex (x, y)

  function VerticesBefore(layout: Layout, nx: nat, x: nat, y: nat): seq<Point> {
    VertexRows(layout, nx, y) + VertexRow(layout, y, x)
  }

  function TrianglesBefore(style: Style, nx: nat, ny: nat, x: nat, y: nat): seq<Triangle> {
    if y < Cells(ny) then Rows(style, nx, y) + Row(style, nx, y, if x < Cells(nx) then x else Cells(nx))
    else Grid(style, nx, ny)
  }

  lemma NextVertex(style: Style, layout: Layout, nx: nat, ny: nat, x: nat, y: nat)
    requires x < nx && y < ny
    ensures VerticesBefore(layout, nx, x + 1, y) == VerticesBefore(layout, nx, x, y) + [layout(x, y)]
    ensures TrianglesBefore(style, nx, ny, x + 1, y)
            == TrianglesBefore(style, nx, ny, x, y)
               + (if x < nx - 1 && y < ny - 1
                  then [CellTriangle(style, nx, x, y, 0)] + [CellTriangle(style, nx, x, y, 1)] else [])
  {
  }

  lemma NextRow(style: Style, layout: Layout, nx: nat, ny: nat, y: nat)
    requires y < ny
    ensures Index(nx, nx, y) == Index(nx, 0, y + 1)
    ensures VerticesBefore(layout, nx, nx, y) == VerticesBefore(layout, nx, 0, y + 1)
    ensures TrianglesBefore(style, nx, ny, nx, y) == TrianglesBefore(style, nx, ny, 0, y + 1)
  {
  }

  method MeshCreateGrid(width: nat, height: nat) returns (vertices: seq<Point>, triangles: seq<Triangle>)
    ensures vertices == PixelVertices(width, height)
    ensures triangles == Grid(Pixels, width + 2, height + 2)
  {
    var numVertsX, numVertsY := width + 2, height + 2;
    ghost var layout := LayoutOf(Pixels, width, height);
    vertices, triangles := [], [];
    var index := 0;
    for y := 0 to numVertsY
      invariant index == Index(numVertsX, 0, y)
      invariant vertices == VerticesBefore(layout, numVertsX, 0, y)
      invariant triangles == TrianglesBefore(Pixels, numVertsX, numVertsY, 0, y)
    {
      for x := 0 to numVertsX
        invariant index == Index(numVertsX, x, y)
        invariant vertices == VerticesBefore(layout, numVertsX, x, y)
        invariant triangles == TrianglesBefore(Pixels, numVertsX, numVertsY, x, y)
      {
        NextVertex(Pixels, layout, numVertsX, numVertsY, x, y);
        vertices := vertices + [(PixelCenter(x, width), PixelCenter(y, height))];
        if x < numVertsX - 1 && y < numVertsY - 1 {
          triangles := triangles + ([Triangle(index, index + 1, index + numVertsX + 1)]
                                    + [Triangle(index, index + numVertsX + 1, index + numVertsX)]);
        }
        index := index + 1;
      }
      NextRow(Pixels, layout, numVertsX, numVertsY, y);
    }
  }

  /** The body of the inner loop: the vertex at (x, y) and the triangles of the cell that starts there. */
  method HexVertex(width: nat, height: nat, stepX: real, stepY: real, x: nat, y: nat, index: nat)
    returns (vertex: Point, cell: seq<Triangle>)
    requires x < width && y < height && index == Index(width, x, y)
    ensures vertex == (HexX(x, y, stepX), HexY(y, stepY))
    ensures cell == if x < width - 1 && y < height - 1
                    then [CellTriangle(Hex, width, x, y, 0)] + [CellTriangle(Hex, width, x, y, 1)] else []
  {
    cell := [];
    if y % 2 == 0 {
      vertex := (x as real * stepX, y as real * stepY);
      if x < width - 1 && y < height - 1 {
        cell := [Triangle(index, index + 1, index + width)] + [Triangle(index + 1, index + width + 1, index + width)];
      }
    } else {
      vertex := (x as real * stepX + 0.5 * stepX, y as real * stepY);
      if x < width - 1 && y < height - 1 {
        cell := [Triangle(index, index + 1, index + width + 1)] + [Triangle(index, index + width + 1, index + width)];
      }
    }
  }

  method MeshCreateHexGrid(width: nat, height: nat) returns (vertices: seq<Point>, triangles: seq<Triangle>)
    ensures vertices == HexVertices(width, height)
    ensures triangles == Grid(Hex, width, height)
  {
    ghost var layout := LayoutOf(Hex, width, height);
    vertices, triangles := [], [];
    var stepX, stepY := StepOf(width), StepOf(height);
    var index := 0;
    for y := 0 to height
      invariant index == Index(width, 0, y)
      invariant vertices == VerticesBefore(layout, width, 0, y)
      invariant triangles == TrianglesBefore(Hex, width, height, 0, y)
    {
      for x := 0 to width
        invariant index == Index(width, x, y)
        invariant vertices == VerticesBefore(layout, width, x, y)
        invariant triangles == TrianglesBefore(Hex, width, height, x, y)
      {
        NextVertex(Hex, layout, width, height, x, y);
        var vertex, cell := HexVertex(width, height, stepX, stepY, x, y, index);
        vertices := vertices + [vertex];
        triangles := triangles + cell;
        index := index + 1;
      }
      NextRow(Hex, layout, width, height, y);
    }
  }

  // ----- Neighbourhood, by cell, triangle and corner

  /** Corner `k` of triangle `t` of cell (x, y), with the directed edge that starts there. */
  datatype Corner = Corner(x: int, y: int, t: int, k: int)

  type Coord = (int, int)

  predicate IsCorner(nx: nat, ny: nat, c: Corner) {
    0 <= c.x < nx - 1 && 0 <= c.y < ny - 1 && 0 <= c.t < 2 && 0 <= c.k < 3
  }

  function CornerAt(style: Style, c: Corner): Coord {
    var a, b, d, e := (c.x, c.y), (c.x + 1, c.y), (c.x + 1, c.y + 1), (c.x, c.y + 1);
    if Flipped(style, c.y) then
      if c.t == 0 then (if c.k == 0 then a else if c.k == 1 then b else e)
      else (if c.k == 0 then b else if c.k == 1 then d else e)
    else
      if c.t == 0 then (if c.k == 0 then a else if c.k == 1 then b else d)
      else (if c.k == 0 then a else if c.k == 1 then d else e)
  }

  function CoordEdge(style: Style, c: Corner): (Coord, Coord) {
    (CornerAt(style, c), CornerAt(style, c.(k := if c.k == 2 then 0 else c.k + 1)))
  }

  /** The one corner a directed edge between neighbouring vertices can start at. */
  function Origin(style: Style, u: Coord, v: Coord): Corner {
    var dx, dy := v.0 - u.0, v.1 - u.1;
    if dy == 0 then
      if dx == 1 then Corner(u.0, u.1, 0, 0) else Corner(v.0, v.1 - 1, 1, 1)
    else if dx == 0 then
      if dy == 1 then Corner(u.0 - 1, u.1, if Flipped(style, u.1) then 1 else 0, if Flipped(style, u.1) then 0 else 1)
      else Corner(v.0, v.1, if Flipped(style, v.1) then 0 else 1, 2)
    else if dx == -1 && dy == -1 then Corner(v.0, v.1, 0, 2)
    else if dx == 1 && dy == 1 then Corner(u.0, u.1, 1, 0)
    else if dx == -1 then Corner(v.0, u.1, 0, 1)
    else Corner(u.0, v.1, 1, 2)
  }

  lemma OriginOfCoordEdge(style: Style, nx: nat, ny: nat, c: Corner)
    requires IsCorner(nx, ny, c)
    ensures Origin(style, CoordEdge(style, c).0, CoordEdge(style, c).1) == c
  {
  }

  /** Both ends on the same side of the grid. */
  predicate OnRim(nx: nat, ny: nat, u: Coord, v: Coord) {
    || (u.0 == v.0 && (u.0 == 0 || u.0 == nx - 1))
    || (u.1 == v.1 && (u.1 == 0 || u.1 == ny - 1))
  }

  /** An edge meets its reverse in the grid exactly when it does not lie on the rim. */
  lemma TwinUnlessOnRim(style: Style, nx: nat, ny: nat, c: Corner)
    requires IsCorner(nx, ny, c)
    ensures var (u, v) := CoordEdge(style, c);
            var twin := Origin(style, v, u);
            (IsCorner(nx, ny, twin) && CoordEdge(style, twin) == (v, u)) <==> !OnRim(nx, ny, u, v)
  {
  }

  // ----- From corners to the triangle list

  function Number(nx: nat, u: Coord): int {
    if u.1 < 0 then -1 else RowStart(nx, u.1) + u.0
  }

  predicate IsVertex(nx: nat, ny: nat, u: Coord) {
    0 <= u.0 < nx && 0 <= u.1 < ny
  }

  lemma NumberIsInjective(nx: nat, ny: nat, u: Coord, v: Coord)
    requires IsVertex(nx, ny, u) && IsVertex(nx, ny, v)
    ensures Number(nx, u) == Number(nx, v) ==> u == v
  {
    if u.1 < v.1 {
      RowsAscend(nx, u.1, v.1);
    } else if v.1 < u.1 {
      RowsAscend(nx, v.1, u.1);
    }
  }

  lemma NumberIsBounded(nx: nat, ny: nat, u: Coord)
    requires IsVertex(nx, ny, u)
    ensures 0 <= Number(nx, u) < RowStart(nx, ny)
  {
  }

  lemma CornersNumberTheTriangles(style: Style, nx: nat, ny: nat, c: Corner)
    requires IsCorner(nx, ny, c)
    ensures EdgeAt(CellTriangle(style, nx, c.x, c.y, c.t), c.k)
            == (Number(nx, CoordEdge(style, c).0), Number(nx, CoordEdge(style, c).1))
  {
  }

  lemma OneMoreRow(r: nat, m: nat)
    requires r > 0
    ensures r * m == (r - 1) * m + m
  {
  }

  lemma {:induction false} RowsLength(style: Style, nx: nat, r: nat)
    ensures |Rows(style, nx, r)| == r * (2 * Cells(nx))
  {
    if r > 0 {
      RowsLength(style, nx, r - 1);
      OneMoreRow(r, 2 * Cells(nx));
    }
  }

  lemma {:induction false} RowAt(style: Style, nx: nat, y: nat, k: nat, j: nat)
    requires j < 2 * k
    ensures Row(style, nx, y, k)[j] == CellTriangle(style, nx, j / 2, y, j % 2)
  {
    if j < 2 * (k - 1) {
      RowAt(style, nx, y, k - 1, j);
    }
  }

  /** The cell and the triangle in it that position `i` of the triangle list belongs to. */
  function Located(style: Style, nx: nat, r: nat, i: nat): (int, int, int)
    requires i < |Rows(style, nx, r)|
    decreases r
  {
    var before := |Rows(style, nx, r - 1)|;
    if i < before then Located(style, nx, r - 1, i) else ((i - before) / 2, r - 1, (i - before) % 2)
  }

  lemma {:induction false} LocatedIsCell(style: Style, nx: nat, r: nat, i: nat)
    requires i < |Rows(style, nx, r)|
    ensures var (x, y, t) := Located(style, nx, r, i);
            && 0 <= x < Cells(nx) && 0 <= y < r && 0 <= t < 2
            && Rows(style, nx, r)[i] == CellTriangle(style, nx, x, y, t)
            && i == |Rows(style, nx, y)| + 2 * x + t
    decreases r
  {
    var before := |Rows(style, nx, r - 1)|;
    if i < before {
      LocatedIsCell(style, nx, r - 1, i);
    } else {
      RowAt(style, nx, r - 1, Cells(nx), i - before);
    }
  }

  /** Corner `k` of the triangle at position `i`. */
  function CornerOf(style: Style, nx: nat, ny: nat, i: nat, k: nat): Corner
    requires i < |Grid(style, nx, ny)|
  {
    var (x, y, t) := Located(style, nx, Cells(ny), i);
    Corner(x, y, t, k)
  }

  lemma CornerOfIsCorner(style: Style, nx: nat, ny: nat, i: nat, k: nat)
    requires i < |Grid(style, nx, ny)| && k < 3
    ensures var c := CornerOf(style, nx, ny, i, k);
            && IsCorner(nx, ny, c)
            && EdgeAt(Grid(style, nx, ny)[i], k)
               == (Number(nx, CoordEdge(style, c).0), Number(nx, CoordEdge(style, c).1))
            && i == |Rows(style, nx, c.y)| + 2 * c.x + c.t
  {
    LocatedIsCell(style, nx, Cells(ny), i);
    CornersNumberTheTriangles(style, nx, ny, CornerOf(style, nx, ny, i, k));
  }

  lemma CornersAreVertices(style: Style, nx: nat, ny: nat, c: Corner)
    requires IsCorner(nx, ny, c)
    ensures IsVertex(nx, ny, CoordEdge(style, c).0) && IsVertex(nx, ny, CoordEdge(style, c).1)
    ensures CoordEdge(style, c).0 != CoordEdge(style, c).1
  {
  }

  /** A directed edge of the list determines the corner it starts at. */
  lemma EdgeDeterminesCorner(style: Style, nx: nat, ny: nat, c: Corner, d: Corner)
    requires IsCorner(nx, ny, c) && IsCorner(nx, ny, d)
    requires Number(nx, CoordEdge(style, c).0) == Number(nx, CoordEdge(style, d).0)
    requires Number(nx, CoordEdge(style, c).1) == Number(nx, CoordEdge(style, d).1)
    ensures c == d
  {
    CornersAreVertices(style, nx, ny, c);
    CornersAreVertices(style, nx, ny, d);
    NumberIsInjective(nx, ny, CoordEdge(style, c).0, CoordEdge(style, d).0);
    NumberIsInjective(nx, ny, CoordEdge(style, c).1, CoordEdge(style, d).1);
    OriginOfCoordEdge(style, nx, ny, c);
    OriginOfCoordEdge(style, nx, ny, d);
  }

  /** Both generators wind all their triangles the same way. */
  lemma GridIsOriented(style: Style, nx: nat, ny: nat)
    ensures Oriented(Grid(style, nx, ny))
  {
    var mesh := Grid(style, nx, ny);
    forall i, j, k, m | 0 <= i < |mesh| && 0 <= j < |mesh| && 0 <= k < 3 && 0 <= m < 3 &&
                        EdgeAt(mesh[i], k) == EdgeAt(mesh[j], m)
      ensures i == j && k == m
    {
      CornerOfIsCorner(style, nx, ny, i, k);
      CornerOfIsCorner(style, nx, ny, j, m);
      EdgeDeterminesCorner(style, nx, ny, CornerOf(style, nx, ny, i, k), CornerOf(style, nx, ny, j, m));
    }
  }

  /** Two triangles are made for each cell. */
  lemma GridTriangleCount(style: Style, nx: nat, ny: nat)
    ensures |Grid(style, nx, ny)| == Cells(ny) * (2 * Cells(nx))
  {
    RowsLength(style, nx, Cells(ny));
  }

  lemma CellIsAt(style: Style, nx: nat, ny: nat, x: nat, y: nat, t: nat)
    requires x + 1 < nx && y + 1 < ny && t < 2
    ensures var i := y * (2 * (nx - 1)) + 2 * x + t;
            0 <= i < |Grid(style, nx, ny)| && Grid(style, nx, ny)[i] == CellTriangle(style, nx, x, y, t)
  {
    RowsLength(style, nx, y);
    CellIsInRows(style, nx, Cells(ny), x, y, t);
  }

  /** The two triangles of cell (x, y) of the pixel grid, by the numbers of its four vertices. */
  lemma PixelTrianglesAt(nx: nat, ny: nat, x: nat, y: nat)
    requires x + 1 < nx && y + 1 < ny
    ensures var mesh, i, a := Grid(Pixels, nx, ny), y * (2 * (nx - 1)) + 2 * x, y * nx + x;
            && 0 <= i < i + 1 < |mesh|
            && mesh[i] == Triangle(a, a + 1, a + nx + 1) && mesh[i + 1] == Triangle(a, a + nx + 1, a + nx)
  {
    CellIsAt(Pixels, nx, ny, x, y, 0);
    CellIsAt(Pixels, nx, ny, x, y, 1);
    RowStartIsProduct(nx, y);
  }

  /** And of the hex grid, where the diagonal depends on the row. */
  lemma HexTrianglesAt(nx: nat, ny: nat, x: nat, y: nat)
    requires x + 1 < nx && y + 1 < ny
    ensures var mesh, i, a := Grid(Hex, nx, ny), y * (2 * (nx - 1)) + 2 * x, y * nx + x;
            && 0 <= i < i + 1 < |mesh|
            && (y % 2 == 0 ==>
                  mesh[i] == Triangle(a, a + 1, a + nx) && mesh[i + 1] == Triangle(a + 1, a + nx + 1, a + nx))
            && (y % 2 == 1 ==>
                  mesh[i] == Triangle(a, a + 1, a + nx + 1) && mesh[i + 1] == Triangle(a, a + nx + 1, a + nx))
  {
    CellIsAt(Hex, nx, ny, x, y, 0);
    CellIsAt(Hex, nx, ny, x, y, 1);
    RowStartIsProduct(nx, y);
  }

  /** Every triangle index names a vertex. */
  lemma GridIndicesAreValid(style: Style, nx: nat, ny: nat)
    ensures ValidIndices(Grid(style, nx, ny), ny * nx)
  {
    var mesh := Grid(style, nx, ny);
    RowStartIsProduct(nx, ny);
    forall i, k | 0 <= i < |mesh| && 0 <= k < 3
      ensures EdgeAt(mesh[i], k).0 < ny * nx && EdgeAt(mesh[i], k).0 != EdgeAt(mesh[i], k).1
    {
      CornerOfIsCorner(style, nx, ny, i, k);
      var c := CornerOf(style, nx, ny, i, k);
      CornersAreVertices(style, nx, ny, c);
      NumberIsBounded(nx, ny, CoordEdge(style, c).0);
      NumberIsInjective(nx, ny, CoordEdge(style, c).0, CoordEdge(style, c).1);
    }
  }

  // ----- The rim

  lemma {:induction false} CellIsInRows(style: Style, nx: nat, r: nat, x: nat, y: nat, t: nat)
    requires x < Cells(nx) && y < r && t < 2
    ensures var i := |Rows(style, nx, y)| + 2 * x + t;
            i < |Rows(style, nx, r)| && Rows(style, nx, r)[i] == CellTriangle(style, nx, x, y, t)
    decreases r
  {
    if y < r - 1 {
      CellIsInRows(style, nx, r - 1, x, y, t);
    } else {
      var j := 2 * x + t;
      assert j / 2 == x && j % 2 == t;
      RowAt(style, nx, y, Cells(nx), j);
      assert Rows(style, nx, r) == Rows(style, nx, y) + Row(style, nx, y, Cells(nx));
    }
  }

  lemma {:induction false} CornerEdgeIsInGrid(style: Style, nx: nat, ny: nat, c: Corner)
    requires IsCorner(nx, ny, c)
    ensures (Number(nx, CoordEdge(style, c).0), Number(nx, CoordEdge(style, c).1)) in Edges(Grid(style, nx, ny))
  {
    var mesh := Grid(style, nx, ny);
    var i := |Rows(style, nx, c.y)| + 2 * c.x + c.t;
    CellIsInRows(style, nx, Cells(ny), c.x, c.y, c.t);
    CornersNumberTheTriangles(style, nx, ny, c);
    EdgeIsMember(mesh, i, c.k);
  }

  /**
   Over the whole list: the directed edge from vertex `u` to vertex `v` has no neighbour on
   its other side exactly when it lies on the rim.
   */
  lemma GridRim(style: Style, nx: nat, ny: nat, e: Edge) returns (u: Coord, v: Coord)
    requires e in Edges(Grid(style, nx, ny))
    ensures IsVertex(nx, ny, u) && IsVertex(nx, ny, v) && e == (Number(nx, u), Number(nx, v))
    ensures Reverse(e) !in Edges(Grid(style, nx, ny)) <==> OnRim(nx, ny, u, v)
  {
    var c := CornerOfEdge(style, nx, ny, e);
    u, v := CoordEdge(style, c).0, CoordEdge(style, c).1;
    CornersAreVertices(style, nx, ny, c);
    TwinUnlessOnRim(style, nx, ny, c);
    if !OnRim(nx, ny, u, v) {
      CornerEdgeIsInGrid(style, nx, ny, Origin(style, v, u));
    }
    if Reverse(e) in Edges(Grid(style, nx, ny)) {
      var d := CornerOfEdge(style, nx, ny, Reverse(e));
      CornersAreVertices(style, nx, ny, d);
      NumberIsInjective(nx, ny, v, CoordEdge(style, d).0);
      NumberIsInjective(nx, ny, u, CoordEdge(style, d).1);
      OriginOfCoordEdge(style, nx, ny, d);
    }
  }

  lemma CornerOfEdge(style: Style, nx: nat, ny: nat, e: Edge) returns (c: Corner)
    requires e in Edges(Grid(style, nx, ny))
    ensures IsCorner(nx, ny, c) && e == (Number(nx, CoordEdge(style, c).0), Number(nx, CoordEdge(style, c).1))
  {
    var mesh := Grid(style, nx, ny);
    EdgesMembers(mesh, e);
    var i, k :| 0 <= i < |mesh| && 0 <= k < 3 && EdgeAt(mesh[i], k) == e;
    CornerOfIsCorner(style, nx, ny, i, k);
    c := CornerOf(style, nx, ny, i, k);
  }

  // ----- Areas

  /** Twice the signed area of a triangle. */
  function Cross(p: Point, q: Point, r: Point): real {
    (q.0 - p.0) * (r.1 - p.1) - (r.0 - p.0) * (q.1 - p.1)
  }

  function VertexOf(vertices: seq<Point>, i: nat): Point {
    if i < |vertices| then vertices[i] else (0.0, 0.0)
  }

  function DoubleArea(vertices: seq<Point>, t: Triangle): real {
    Cross(VertexOf(vertices, t.a), VertexOf(vertices, t.b), VertexOf(vertices, t.c))
  }

  /** The sum of `area` over the triangles of a mesh. */
  function Total(area: Triangle -> real, mesh: seq<Triangle>): real {
    if mesh == [] then 0.0 else Total(area, mesh[..|mesh| - 1]) + area(mesh[|mesh| - 1])
  }

  lemma {:induction false} TotalOfConcat(area: Triangle -> real, a: seq<Triangle>, b: seq<Triangle>)
    ensures Total(area, a + b) == Total(area, a) + Total(area, b)
  {
    if b == [] {
      assert a + b == a;
    } else {
      var n := |b| - 1;
      TotalOfConcat(area, a, b[..n]);
      assert (a + b)[..|a + b| - 1] == a + b[..n];
    }
  }

  lemma VertexOfConcat(a: seq<Point>, b: seq<Point>, i: nat)
    ensures VertexOf(a + b, i) == if i < |a| then VertexOf(a, i) else VertexOf(b, i - |a|)
  {
  }

  lemma {:induction false} VertexIsInRows(layout: Layout, nx: nat, r: nat, x: nat, y: nat)
    requires x < nx && y < r
    ensures VertexOf(VertexRows(layout, nx, r), Index(nx, x, y)) == layout(x, y)
    decreases r
  {
    VertexOfConcat(VertexRows(layout, nx, r - 1), VertexRow(layout, r - 1, nx), Index(nx, x, y));
    if y < r - 1 {
      RowsAscend(nx, y, r - 1);
      VertexIsInRows(layout, nx, r - 1, x, y);
    }
  }

  function Points(vertices: seq<Point>, t: Triangle): (Point, Point, Point) {
    (VertexOf(vertices, t.a), VertexOf(vertices, t.b), VertexOf(vertices, t.c))
  }

  lemma {:induction false} CellVertices(layout: Layout, nx: nat, ny: nat, x: nat, y: nat)
    requires x < Cells(nx) && y < Cells(ny)
    ensures var vertices, first := VertexRows(layout, nx, ny), Index(nx, x, y);
            && VertexOf(vertices, first) == layout(x, y) && VertexOf(vertices, first + 1) == layout(x + 1, y)
            && VertexOf(vertices, first + nx) == layout(x, y + 1)
            && VertexOf(vertices, first + nx + 1) == layout(x + 1, y + 1)
  {
    var first := Index(nx, x, y);
    assert Index(nx, x + 1, y) == first + 1;
    assert Index(nx, x, y + 1) == first + nx && Index(nx, x + 1, y + 1) == first + nx + 1;
    VertexIsInRows(layout, nx, ny, x, y);
    VertexIsInRows(layout, nx, ny, x + 1, y);
    VertexIsInRows(layout, nx, ny, x, y + 1);
    VertexIsInRows(layout, nx, ny, x + 1, y + 1);
  }

  function CellCorners(layout: Layout, flipped: bool, x: nat, y: nat, t: nat): (Point, Point, Point) {
    var a, b, c, d := layout(x, y), layout(x + 1, y), layout(x + 1, y + 1), layout(x, y + 1);
    if flipped then (if t == 0 then (a, b, d) else (b, c, d)) else (if t == 0 then (a, b, c) else (a, c, d))
  }

  /** Where the triangles of a cell lie, for either diagonal. */
  lemma {:induction false} CellPoints(style: Style, layout: Layout, nx: nat, ny: nat, x: nat, y: nat, t: nat)
    requires x < Cells(nx) && y < Cells(ny)
    ensures Points(VertexRows(layout, nx, ny), CellTriangle(style, nx, x, y, t))
            == CellCorners(layout, Flipped(style, y), x, y, t)
  {
    CellVertices(layout, nx, ny, x, y);
  }

  function Rectangle(width: real, height: real): real {
    width * height
  }

  /** Both halves of a rectangle, given by their corners. */
  lemma RectangleHalves(x0: real, x1: real, y0: real, y1: real)
    ensures Cross((x0, y0), (x1, y0), (x1, y1)) == Rectangle(x1 - x0, y1 - y0)
    ensures Cross((x0, y0), (x1, y1), (x0, y1)) == Rectangle(x1 - x0, y1 - y0)
  {
  }

  /** A cell with upright sides is a rectangle, cut in half. */
  lemma RectangularCell(layout: Layout, nx: nat, ny: nat, x: nat, y: nat, x0: real, x1: real, y0: real, y1: real)
    requires x < Cells(nx) && y < Cells(ny)
    requires layout(x, y) == (x0, y0) && layout(x + 1, y) == (x1, y0)
    requires layout(x + 1, y + 1) == (x1, y1) && layout(x, y + 1) == (x0, y1)
    ensures DoubleArea(VertexRows(layout, nx, ny), CellTriangle(Pixels, nx, x, y, 0)) == Rectangle(x1 - x0, y1 - y0)
    ensures DoubleArea(VertexRows(layout, nx, ny), CellTriangle(Pixels, nx, x, y, 1)) == Rectangle(x1 - x0, y1 - y0)
  {
    CellPoints(Pixels, layout, nx, ny, x, y, 0);
    CellPoints(Pixels, layout, nx, ny, x, y, 1);
    RectangleHalves(x0, x1, y0, y1);
  }

  /** The area between the y axis and column `x`, within row `y`. */
  function Swept(fx: nat -> real, fy: nat -> real, x: nat, y: nat): real {
    Rectangle(fx(x), fy(y + 1) - fy(y))
  }

  /** The area is the same for both triangles of the cell: what the next column sweeps. */
  ghost predicate CellSweeps(area: Triangle -> real, fx: nat -> real, fy: nat -> real, nx: nat, x: nat, y: nat) {
    area(CellTriangle(Pixels, nx, x, y, 0)) == area(CellTriangle(Pixels, nx, x, y, 1))
    == Swept(fx, fy, x + 1, y) - Swept(fx, fy, x, y)
  }

  ghost predicate Sweeps(area: Triangle -> real, fx: nat -> real, fy: nat -> real, nx: nat, ny: nat) {
    forall x: nat, y: nat | x < Cells(nx) && y < Cells(ny) :: CellSweeps(area, fx, fy, nx, x, y)
  }

  lemma TwoMore(area: Triangle -> real, mesh: seq<Triangle>, t0: Triangle, t1: Triangle)
    ensures Total(area, mesh + [t0, t1]) == Total(area, mesh) + area(t0) + area(t1)
  {
    var more := mesh + [t0, t1];
    assert more[..|more| - 1] == mesh + [t0];
    assert (mesh + [t0])[..|mesh|] == mesh;
  }

  lemma {:induction false} RowArea(area: Triangle -> real, fx: nat -> real, fy: nat -> real, nx: nat, ny: nat,
                                   y: nat, k: nat)
    requires Sweeps(area, fx, fy, nx, ny) && k <= Cells(nx) && y < Cells(ny)
    ensures Total(area, Row(Pixels, nx, y, k)) == 2.0 * (Swept(fx, fy, k, y) - Swept(fx, fy, 0, y))
  {
    if k > 0 {
      RowArea(area, fx, fy, nx, ny, y, k - 1);
      assert CellSweeps(area, fx, fy, nx, k - 1, y);
      TwoMore(area, Row(Pixels, nx, y, k - 1),
              CellTriangle(Pixels, nx, k - 1, y, 0), CellTriangle(Pixels, nx, k - 1, y, 1));
    }
  }

  lemma UnitWidth(w0: real, w1: real, d: real)
    requires w0 == 0.0 && w1 == 1.0
    ensures Rectangle(w1, d) - Rectangle(w0, d) == d
  {
  }

  /** In a grid of unit width every row has the area of its height. */
  lemma UnitRowArea(area: Triangle -> real, fx: nat -> real, fy: nat -> real, nx: nat, ny: nat, y: nat)
    requires Sweeps(area, fx, fy, nx, ny) && y < Cells(ny)
    requires fx(0) == 0.0 && fx(Cells(nx)) == 1.0
    ensures Total(area, Row(Pixels, nx, y, Cells(nx))) == 2.0 * (fy(y + 1) - fy(y))
  {
    RowArea(area, fx, fy, nx, ny, y, Cells(nx));
    UnitWidth(fx(0), fx(Cells(nx)), fy(y + 1) - fy(y));
  }

  lemma {:induction false} RowsArea(area: Triangle -> real, fy: nat -> real, nx: nat, ny: nat, r: nat)
    requires r <= Cells(ny)
    requires forall y: nat | y < Cells(ny) :: Total(area, Row(Pixels, nx, y, Cells(nx))) == 2.0 * (fy(y + 1) - fy(y))
    ensures Total(area, Rows(Pixels, nx, r)) == 2.0 * (fy(r) - fy(0))
  {
    if r > 0 {
      RowsArea(area, fy, nx, ny, r - 1);
      TotalOfConcat(area, Rows(Pixels, nx, r - 1), Row(Pixels, nx, r - 1, Cells(nx)));
    }
  }

  // ----- The pixel grid

  lemma UprightCell(fx: nat -> real, fy: nat -> real, nx: nat, ny: nat, x: nat, y: nat)
    requires x < Cells(nx) && y < Cells(ny)
    ensures var vertices := VertexRows(Upright(fx, fy), nx, ny);
            var side := Rectangle(fx(x + 1) - fx(x), fy(y + 1) - fy(y));
            && DoubleArea(vertices, CellTriangle(Pixels, nx, x, y, 0)) == side
            && DoubleArea(vertices, CellTriangle(Pixels, nx, x, y, 1)) == side
  {
    RectangularCell(Upright(fx, fy), nx, ny, x, y, fx(x), fx(x + 1), fy(y), fy(y + 1));
  }

  function AreaIn(vertices: seq<Point>): Triangle -> real {
    (t: Triangle) => DoubleArea(vertices, t)
  }

  lemma Distribute(a: real, b: real, d: real)
    ensures Rectangle(b - a, d) == Rectangle(b, d) - Rectangle(a, d)
  {
  }

  lemma UprightCellSweeps(fx: nat -> real, fy: nat -> real, nx: nat, ny: nat, x: nat, y: nat)
    requires x < Cells(nx) && y < Cells(ny)
    ensures CellSweeps(AreaIn(VertexRows(Upright(fx, fy), nx, ny)), fx, fy, nx, x, y)
  {
    UprightCell(fx, fy, nx, ny, x, y);
    Distribute(fx(x), fx(x + 1), fy(y + 1) - fy(y));
  }

  lemma UprightSweeps(fx: nat -> real, fy: nat -> real, nx: nat, ny: nat)
    ensures Sweeps(AreaIn(VertexRows(Upright(fx, fy), nx, ny)), fx, fy, nx, ny)
  {
    forall x: nat, y: nat | x < Cells(nx) && y < Cells(ny)
      ensures CellSweeps(AreaIn(VertexRows(Upright(fx, fy), nx, ny)), fx, fy, nx, x, y)
    {
      UprightCellSweeps(fx, fy, nx, ny, x, y);
    }
  }

  /** The area of an upright grid of unit width is its height. */
  lemma UprightTotal(area: Triangle -> real, fx: nat -> real, fy: nat -> real, nx: nat, ny: nat)
    requires Sweeps(area, fx, fy, nx, ny)
    requires fx(0) == 0.0 && fx(Cells(nx)) == 1.0
    ensures Total(area, Grid(Pixels, nx, ny)) == 2.0 * (fy(Cells(ny)) - fy(0))
  {
    forall y: nat | y < Cells(ny)
      ensures Total(area, Row(Pixels, nx, y, Cells(nx))) == 2.0 * (fy(y + 1) - fy(y))
    {
      UnitRowArea(area, fx, fy, nx, ny, y);
    }
    RowsArea(area, fy, nx, ny, Cells(ny));
  }

  function PixelVertices(width: nat, height: nat): seq<Point> {
    VertexRows(LayoutOf(Pixels, width, height), width + 2, height + 2)
  }

  lemma PixelCentersSpan(width: nat)
    ensures PixelCenter(0, width) == 0.0 && PixelCenter(width + 1, width) == 1.0
  {
  }

  lemma PixelCentersAscend(x: nat, width: nat)
    ensures PixelCenter(x, width) <= PixelCenter(x + 1, width)
  {
  }

  lemma Quotients(a: real, b: real, w: real)
    requires w > 0.0
    ensures a * (1.0 / w) == a / w && a / w == (2.0 * a) / (2.0 * w) && (a + b) / w == a / w + b / w
    ensures 0.0 <= a <= w ==> 0.0 <= a / w <= 1.0
  {
    assert a == (a / w) * w;
  }

  lemma PixelCenterAt(x: nat, width: nat)
    requires 1 <= x <= width
    ensures PixelCenter(x, width) == (x as real - 0.5) / width as real == (2 * x - 1) as real / (2 * width) as real
  {
    Quotients(x as real - 0.5, 0.0, width as real);
    assert 2.0 * (x as real - 0.5) == (2 * x - 1) as real && 2.0 * width as real == (2 * width) as real;
  }

  lemma PixelCentersApart(x: nat, width: nat)
    requires 1 <= x < width
    ensures PixelCenter(x + 1, width) - PixelCenter(x, width) == 1.0 / width as real
  {
    PixelCenterAt(x, width);
    PixelCenterAt(x + 1, width);
    Quotients(x as real - 0.5, 1.0, width as real);
    assert (x + 1) as real - 0.5 == (x as real - 0.5) + 1.0;
  }

  /** Where vertex (x, y) of an array of rows stands. */
  lemma VertexIsAt(layout: Layout, nx: nat, ny: nat, x: nat, y: nat)
    requires x < nx && y < ny
    ensures 0 <= y * nx + x < |VertexRows(layout, nx, ny)| && VertexRows(layout, nx, ny)[y * nx + x] == layout(x, y)
  {
    VertexIsInRows(layout, nx, ny, x, y);
    RowStartIsProduct(nx, y);
    RowsAscend(nx, y, ny);
  }

  /** The vertices of the pixel grid: the centers of the pixels, and the edges of the unit square around them. */
  lemma PixelVertexAt(width: nat, height: nat, x: nat, y: nat)
    requires width > 0 && height > 0 && x <= width + 1 && y <= height + 1
    ensures var vertices, i := PixelVertices(width, height), y * (width + 2) + x;
            && 0 <= i < |vertices|
            && vertices[i].0 == (if x == 0 then 0.0 else if x == width + 1 then 1.0
                                 else (2 * x - 1) as real / (2 * width) as real)
            && vertices[i].1 == (if y == 0 then 0.0 else if y == height + 1 then 1.0
                                 else (2 * y - 1) as real / (2 * height) as real)
  {
    VertexIsAt(LayoutOf(Pixels, width, height), width + 2, height + 2, x, y);
    PixelCentersSpan(width);
    PixelCentersSpan(height);
    if 1 <= x <= width { PixelCenterAt(x, width); }
    if 1 <= y <= height { PixelCenterAt(y, height); }
  }

  /** Neighbouring columns of pixel centers are one pixel apart, and so are rows. */
  lemma PixelVerticesAreApart(width: nat, height: nat, x: nat, y: nat)
    requires 1 <= x < width && 1 <= y < height
    ensures var vertices, i := PixelVertices(width, height), y * (width + 2) + x;
            var below := (y + 1) * (width + 2) + x;
            && 0 <= i < i + 1 < |vertices| && 0 <= below < |vertices|
            && vertices[i + 1].0 - vertices[i].0 == 1.0 / width as real && vertices[i + 1].1 == vertices[i].1
            && vertices[below].1 - vertices[i].1 == 1.0 / height as real && vertices[below].0 == vertices[i].0
  {
    var layout := LayoutOf(Pixels, width, height);
    VertexIsAt(layout, width + 2, height + 2, x, y);
    VertexIsAt(layout, width + 2, height + 2, x + 1, y);
    VertexIsAt(layout, width + 2, height + 2, x, y + 1);
    PixelCentersApart(x, width);
    PixelCentersApart(y, height);
  }

  /** The pixel grid covers the unit square: the areas add up to one. */
  lemma PixelGridTilesUnitSquare(width: nat, height: nat)
    ensures Total(AreaIn(PixelVertices(width, height)), Grid(Pixels, width + 2, height + 2)) / 2.0 == 1.0
  {
    PixelCentersSpan(width);
    PixelCentersSpan(height);
    var fx, fy := PixelCenters(width), PixelCenters(height);
    UprightSweeps(fx, fy, width + 2, height + 2);
    UprightTotal(AreaIn(PixelVertices(width, height)), fx, fy, width + 2, height + 2);
  }

  lemma ProductIsNonNegative(a: real, b: real)
    requires a >= 0.0 && b >= 0.0
    ensures Rectangle(a, b) >= 0.0
  {
  }

  lemma UprightCellFacesUp(fx: nat -> real, fy: nat -> real, nx: nat, ny: nat, x: nat, y: nat, t: nat)
    requires x < Cells(nx) && y < Cells(ny) && t < 2
    requires fx(x) <= fx(x + 1) && fy(y) <= fy(y + 1)
    ensures DoubleArea(VertexRows(Upright(fx, fy), nx, ny), CellTriangle(Pixels, nx, x, y, t)) >= 0.0
  {
    UprightCell(fx, fy, nx, ny, x, y);
    ProductIsNonNegative(fx(x + 1) - fx(x), fy(y + 1) - fy(y));
  }

  lemma AscendingFacesUp(fx: nat -> real, fy: nat -> real, nx: nat, ny: nat, i: nat)
    requires i < |Grid(Pixels, nx, ny)|
    requires forall k: nat :: fx(k) <= fx(k + 1) && fy(k) <= fy(k + 1)
    ensures DoubleArea(VertexRows(Upright(fx, fy), nx, ny), Grid(Pixels, nx, ny)[i]) >= 0.0
  {
    LocatedIsCell(Pixels, nx, Cells(ny), i);
    var (x, y, t) := Located(Pixels, nx, Cells(ny), i);
    UprightCellFacesUp(fx, fy, nx, ny, x, y, t);
  }

  /** No triangle of the pixel grid is turned over. */
  lemma PixelTrianglesFaceUp(width: nat, height: nat, i: nat)
    requires i < |Grid(Pixels, width + 2, height + 2)|
    ensures DoubleArea(PixelVertices(width, height), Grid(Pixels, width + 2, height + 2)[i]) >= 0.0
  {
    forall k: nat
      ensures PixelCenters(width)(k) <= PixelCenters(width)(k + 1)
      ensures PixelCenters(height)(k) <= PixelCenters(height)(k + 1)
    {
      PixelCentersAscend(k, width);
      PixelCentersAscend(k, height);
    }
    AscendingFacesUp(PixelCenters(width), PixelCenters(height), width + 2, height + 2, i);
  }

  // ----- The hex grid

  /** Both halves of a cell with slanted sides, for either diagonal. */
  lemma SlantedHalves(a: Point, b: Point, c: Point, d: Point, s: real, h: real)
    requires b == (a.0 + s, a.1) && d.1 == a.1 + h && c == (d.0 + s, d.1)
    ensures d.0 == a.0 + 0.5 * s ==> Cross(a, b, d) == Rectangle(s, h) == Cross(b, c, d)
    ensures d.0 == a.0 - 0.5 * s ==> Cross(a, b, c) == Rectangle(s, h) == Cross(a, c, d)
  {
  }

  function HexVertices(width: nat, height: nat): seq<Point> {
    VertexRows(LayoutOf(Hex, width, height), width, height)
  }

  lemma SlantedCorners(s: real, h: real, x: nat, y: nat)
    ensures var layout := Slanted(s, h);
            var a, b, c, d := layout(x, y), layout(x + 1, y), layout(x + 1, y + 1), layout(x, y + 1);
            && b == (a.0 + s, a.1) && d.1 == a.1 + h && c == (d.0 + s, d.1)
            && d.0 == if y % 2 == 0 then a.0 + 0.5 * s else a.0 - 0.5 * s
  {
  }

  lemma SlantedCell(s: real, h: real, nx: nat, ny: nat, x: nat, y: nat, t: nat)
    requires x < Cells(nx) && y < Cells(ny)
    ensures DoubleArea(VertexRows(Slanted(s, h), nx, ny), CellTriangle(Hex, nx, x, y, t)) == Rectangle(s, h)
  {
    var layout := Slanted(s, h);
    CellPoints(Hex, layout, nx, ny, x, y, t);
    SlantedCorners(s, h, x, y);
    SlantedHalves(layout(x, y), layout(x + 1, y), layout(x + 1, y + 1), layout(x, y + 1), s, h);
  }

  lemma SlantedIsUniform(s: real, h: real, nx: nat, ny: nat, i: nat)
    requires i < |Grid(Hex, nx, ny)|
    ensures DoubleArea(VertexRows(Slanted(s, h), nx, ny), Grid(Hex, nx, ny)[i]) == Rectangle(s, h)
  {
    LocatedIsCell(Hex, nx, Cells(ny), i);
    var (x, y, t) := Located(Hex, nx, Cells(ny), i);
    SlantedCell(s, h, nx, ny, x, y, t);
  }

  /** The vertices of the hex grid: even rows start at zero, odd rows half a step further. */
  lemma HexVertexAt(width: nat, height: nat, x: nat, y: nat)
    requires x < width && y < height
    ensures var vertices, i := HexVertices(width, height), y * width + x;
            && 0 <= i < |vertices|
            && vertices[i].0 == (if y % 2 == 0 then x as real else x as real + 0.5) / width as real
            && vertices[i].1 == y as real / height as real
  {
    VertexIsAt(LayoutOf(Hex, width, height), width, height, x, y);
    HexPosition(x, y, width);
    Quotients(y as real, 0.0, height as real);
  }

  lemma HexPosition(x: nat, y: nat, width: nat)
    requires width > 0
    ensures HexX(x, y, StepOf(width)) == (if y % 2 == 0 then x as real else x as real + 0.5) / width as real
  {
    Quotients(x as real, 0.5, width as real);
    Quotients(0.5, 0.0, width as real);
  }

  /** Every triangle of the hex grid has half the area of a cell, whichever way its row is shifted. */
  lemma HexGridIsUniform(width: nat, height: nat, i: nat)
    requires i < |Grid(Hex, width, height)|
    ensures DoubleArea(HexVertices(width, height), Grid(Hex, width, height)[i])
            == Rectangle(StepOf(width), StepOf(height))
  {
    SlantedIsUniform(StepOf(width), StepOf(height), width, height, i);
  }
}
