/** Triangle meshes as lists of index triples, and what it takes for one to be a surface. */
module MeshTopology {
  datatype Triangle = Triangle(a: nat, b: nat, c: nat)

  type Edge = (nat, nat)

  /** The directed edges of a triangle, in the order of its corners. */
  function EdgeAt(t: Triangle, k: nat): Edge
    requires k < 3
  {
    if k == 0 then (t.a, t.b) else if k == 1 then (t.b, t.c) else (t.c, t.a)
  }

  function Reverse(e: Edge): Edge {
    (e.1, e.0)
  }

  function Edges(mesh: seq<Triangle>): set<Edge> {
    if mesh == [] then {}
    else
      var t := mesh[|mesh| - 1];
      Edges(mesh[..|mesh| - 1]) + {EdgeAt(t, 0), EdgeAt(t, 1), EdgeAt(t, 2)}
  }

  /** No directed edge is used twice: neighbouring triangles are wound the same way. */
  ghost predicate Oriented(mesh: seq<Triangle>) {
    forall i, j, k, m | 0 <= i < |mesh| && 0 <= j < |mesh| && 0 <= k < 3 && 0 <= m < 3 ::
      EdgeAt(mesh[i], k) == EdgeAt(mesh[j], m) ==> i == j && k == m
  }

  /** Every index names a vertex, and no edge runs from a vertex to itself. */
  ghost predicate ValidIndices(mesh: seq<Triangle>, numVertices: nat) {
    forall i, k | 0 <= i < |mesh| && 0 <= k < 3 ::
      EdgeAt(mesh[i], k).0 < numVertices && EdgeAt(mesh[i], k).0 != EdgeAt(mesh[i], k).1
  }

  /** Every directed edge of the mesh is met by its reverse: there is no rim. */
  ghost predicate Closed(mesh: seq<Triangle>) {
    forall e :: e in Edges(mesh) ==> Reverse(e) in Edges(mesh)
  }

  /** The edges without their direction, smaller end first. */
  function Undirected(mesh: seq<Triangle>): set<Edge> {
    set e | e in Edges(mesh) :: if e.0 <= e.1 then e else Reverse(e)
  }

  lemma {:induction false} EdgesMembers(mesh: seq<Triangle>, e: Edge)
    ensures e in Edges(mesh) <==> exists i, k :: 0 <= i < |mesh| && 0 <= k < 3 && EdgeAt(mesh[i], k) == e
  {
    if mesh != [] {
      var n := |mesh| - 1;
      EdgesMembers(mesh[..n], e);
      if e in Edges(mesh[..n]) {
        var i, k :| 0 <= i < n && 0 <= k < 3 && EdgeAt(mesh[..n][i], k) == e;
        assert EdgeAt(mesh[i], k) == e;
      } else if e in Edges(mesh) {
        assert EdgeAt(mesh[n], 0) == e || EdgeAt(mesh[n], 1) == e || EdgeAt(mesh[n], 2) == e;
      }
      if i, k :| 0 <= i < |mesh| && 0 <= k < 3 && EdgeAt(mesh[i], k) == e {
        if i < n {
          assert EdgeAt(mesh[..n][i], k) == e;
        }
      }
    }
  }

  lemma EdgeIsMember(mesh: seq<Triangle>, i: nat, k: nat)
    requires i < |mesh| && k < 3
    ensures EdgeAt(mesh[i], k) in Edges(mesh)
  {
    EdgesMembers(mesh, EdgeAt(mesh[i], k));
  }

  /** In an oriented mesh every corner of every triangle contributes its own directed edge. */
  lemma {:induction false} EdgesCount(mesh: seq<Triangle>)
    requires Oriented(mesh)
    ensures |Edges(mesh)| == 3 * |mesh|
  {
    if mesh != [] {
      var n := |mesh| - 1;
      var front, t := mesh[..n], mesh[n];
      assert Oriented(front) by {
        forall i, j, k, m | 0 <= i < n && 0 <= j < n && 0 <= k < 3 && 0 <= m < 3 &&
                            EdgeAt(front[i], k) == EdgeAt(front[j], m)
          ensures i == j && k == m
        {
          assert EdgeAt(mesh[i], k) == EdgeAt(mesh[j], m);
        }
      }
      EdgesCount(front);
      forall k | 0 <= k < 3
        ensures EdgeAt(t, k) !in Edges(front)
      {
        EdgesMembers(front, EdgeAt(t, k));
        forall i, m | 0 <= i < n && 0 <= m < 3
          ensures EdgeAt(front[i], m) != EdgeAt(t, k)
        {
          assert front[i] == mesh[i] && t == mesh[n];
        }
      }
      assert EdgeAt(mesh[n], 0) != EdgeAt(mesh[n], 1) && EdgeAt(mesh[n], 1) != EdgeAt(mesh[n], 2)
             && EdgeAt(mesh[n], 0) != EdgeAt(mesh[n], 2);
      var own := {EdgeAt(t, 0), EdgeAt(t, 1), EdgeAt(t, 2)};
      assert |own| == 3 && Edges(front) !! own;
    }
  }

  function Reversed(s: set<Edge>): set<Edge> {
    set e | e in s :: Reverse(e)
  }

  lemma {:induction false} ReversedCount(s: set<Edge>)
    ensures |Reversed(s)| == |s|
    decreases |s|
  {
    if s != {} {
      var e :| e in s;
      ReversedCount(s - {e});
      assert Reversed(s) == Reversed(s - {e}) + {Reverse(e)};
      assert Reverse(e) !in Reversed(s - {e});
    }
  }

  function Upward(all: set<Edge>): set<Edge> {
    set e | e in all && e.0 < e.1
  }

  lemma SplitByDirection(all: set<Edge>)
    requires forall e :: e in all ==> Reverse(e) in all && e.0 != e.1
    ensures all == Upward(all) + Reversed(Upward(all))
    ensures Upward(all) !! Reversed(Upward(all))
  {
    forall e | e in all
      ensures e in Upward(all) + Reversed(Upward(all))
    {
      if e.0 > e.1 {
        assert Reverse(e) in Upward(all);
        assert e == Reverse(Reverse(e));
      }
    }
  }

  lemma UndirectedIsUpward(mesh: seq<Triangle>)
    requires Closed(mesh)
    requires forall e :: e in Edges(mesh) ==> e.0 != e.1
    ensures Undirected(mesh) == Upward(Edges(mesh))
  {
  }

  /** On a closed oriented surface every edge is shared by exactly two of the 3F corners. */
  lemma ClosedSurfaceEdgeCount(mesh: seq<Triangle>)
    requires Oriented(mesh) && Closed(mesh)
    requires forall e :: e in Edges(mesh) ==> e.0 != e.1
    ensures 2 * |Undirected(mesh)| == 3 * |mesh|
  {
    var up := Upward(Edges(mesh));
    EdgesCount(mesh);
    ReversedCount(up);
    UndirectedIsUpward(mesh);
    SplitByDirection(Edges(mesh));
  }
}
