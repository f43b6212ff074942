/**
 * The topology of the 12-node infinite prism: which local nodes lie on
 * which side and edge, how sides, edges and TECPLOT sub-cells are built
 * from the element's nodes, and the second-order lookup tables. Local node
 * numbers 0..11 index the element's node list; 99 marks "no node".
 */
module InfPrism12 {
  import opened Wrappers

  const N_SIDES: nat := 4
  const N_EDGES: nat := 6
  const N_NODES: nat := 12
  const N_VERTICES: nat := 6
  const N_SUB_ELEM: nat := 4
  /** The "no node" entry of the tables. */
  const INVALID_NODE: nat := 99

  /** side_nodes_map: the six local nodes of each side, in the side's own order. */
  const SideNodesMap: seq<seq<nat>> :=
    [[0, 1, 2, 6, 7, 8],
     [0, 1, 3, 4, 6, 9],
     [1, 2, 4, 5, 7, 10],
     [2, 0, 5, 3, 8, 11]]

  /** edge_nodes_map: the local nodes of each edge; the infinite edges 3..5 end in 99. */
  const EdgeNodesMap: seq<seq<nat>> :=
    [[0, 1, 6],
     [1, 2, 7],
     [0, 2, 8],
     [0, 3, 99],
     [1, 4, 99],
     [2, 5, 99]]

  /** _second_order_adjacent_vertices: row n - 6 holds the two vertices node n sits between. */
  const SecondOrderAdjacentVertices: seq<seq<nat>> :=
    [[0, 1], [1, 2], [0, 2], [3, 4], [4, 5], [3, 5]]

  /** _second_order_vertex_child_number and _index, indexed by the node itself. */
  const SecondOrderVertexChildNumber: seq<nat> := [99, 99, 99, 99, 99, 99, 0, 1, 0, 0, 1, 0]
  const SecondOrderVertexChildIndex: seq<nat> := [99, 99, 99, 99, 99, 99, 1, 2, 2, 4, 5, 5]

  /** The local nodes of each TECPLOT sub-cell, a hexahedron collapsed to a prism. */
  const SubCellLocalNodes: seq<seq<nat>> :=
    [[0, 6, 8, 8, 3, 9, 11, 11],
     [6, 7, 8, 8, 9, 10, 11, 11],
     [6, 1, 7, 7, 9, 4, 10, 10],
     [8, 7, 2, 2, 11, 10, 5, 5]]

  datatype ElemError = InvalidSide | InvalidSubElement | UnsupportedIOPackage

  datatype FaceKind = Tri6 | InfQuad6
  datatype Face = Face(kind: FaceKind, nodes: seq<nat>)

  datatype EdgeKind = Edge3 | InfEdge2
  datatype Edge = Edge(kind: EdgeKind, nodes: seq<nat>)

  datatype IOPackage = Tecplot | Gmv | Gmsh | Vtk | Diva | Tetgen | Ucd | Libmesh | InvalidIOPackage

  // ------------------------------------------------------------
  // Node classes

  predicate IsVertex(i: nat) { i < 3 }

  predicate IsEdge(i: nat) { !(i < 3) && !(i > 8) }

  predicate IsFace(i: nat) { i > 8 }

  /** Every local node index is exactly one of vertex, edge node and face node. */
  lemma NodeClassesPartition(i: nat)
    ensures IsVertex(i) || IsEdge(i) || IsFace(i)
    ensures !(IsVertex(i) && IsEdge(i)) && !(IsVertex(i) && IsFace(i)) && !(IsEdge(i) && IsFace(i))
    ensures IsEdge(i) <==> 3 <= i <= 8
  {
  }

  // ------------------------------------------------------------
  // Side and edge membership

  /** is_node_on_side(n, s): a search of row s of side_nodes_map. */
  method IsNodeOnSide(n: nat, s: nat) returns (r: bool)
    requires s < N_SIDES
    ensures r <==> n in SideNodesMap[s]
  {
    var row := SideNodesMap[s];
    assert |row| == 6;
    var i := 0;
    while i != 6
      invariant 0 <= i <= 6
      invariant n !in row[..i]
    {
      if row[i] == n {
        return true;
      }
      i := i + 1;
    }
    assert row[..6] == row;
    return false;
  }

  /** is_node_on_edge(n, e): a search of row e of edge_nodes_map, sentinel included. */
  method IsNodeOnEdge(n: nat, e: nat) returns (r: bool)
    requires e < N_EDGES
    ensures r <==> n in EdgeNodesMap[e]
  {
    var row := EdgeNodesMap[e];
    assert |row| == 3;
    var i := 0;
    while i != 3
      invariant 0 <= i <= 3
      invariant n !in row[..i]
    {
      if row[i] == n {
        return true;
      }
      i := i + 1;
    }
    assert row[..3] == row;
    return false;
  }

  /** The real nodes of an edge: the entries below the sentinel. */
  function RealEdgeNodes(e: nat): set<nat>
    requires e < N_EDGES
  {
    set n | n in EdgeNodesMap[e] && n < N_NODES
  }

  /**
   * The finite edges 0..2 have three real nodes, the infinite edges 3..5
   * only two, their third entry being the sentinel; for a real node,
   * membership in an infinite edge means one of its two ends.
   */
  lemma EdgeNodeCounts(e: nat)
    requires e < N_EDGES
    ensures e < 3 ==> |RealEdgeNodes(e)| == 3 && INVALID_NODE !in EdgeNodesMap[e]
    ensures 3 <= e ==> |RealEdgeNodes(e)| == 2 && EdgeNodesMap[e][2] == INVALID_NODE
    ensures 3 <= e ==> forall n :: n < N_NODES && n in EdgeNodesMap[e] ==> n == EdgeNodesMap[e][0] || n == EdgeNodesMap[e][1]
  {
    var row := EdgeNodesMap[e];
    if e < 3 {
      assert RealEdgeNodes(e) == {row[0], row[1], row[2]};
    } else {
      assert RealEdgeNodes(e) == {row[0], row[1]};
    }
  }

  /** Each side lists six distinct local nodes, all below N_NODES. */
  lemma SideRowsWellFormed(s: nat)
    requires s < N_SIDES
    ensures |SideNodesMap[s]| == 6
    ensures forall j, k :: 0 <= j < k < 6 ==> SideNodesMap[s][j] != SideNodesMap[s][k]
    ensures forall j :: 0 <= j < 6 ==> SideNodesMap[s][j] < N_NODES
  {
  }

  /** Every local node lies on some side. */
  lemma EveryNodeOnSomeSide(n: nat)
    requires n < N_NODES
    ensures exists s :: 0 <= s < N_SIDES && n in SideNodesMap[s]
  {
    if n in SideNodesMap[0] {
      assert 0 < N_SIDES && n in SideNodesMap[0];
    } else if n in SideNodesMap[1] {
      assert 1 < N_SIDES && n in SideNodesMap[1];
    } else if n in SideNodesMap[2] {
      assert 2 < N_SIDES && n in SideNodesMap[2];
    } else {
      assert n == 11;
      assert 3 < N_SIDES && n in SideNodesMap[3];
    }
  }

  /** The real nodes of every edge lie together on one side. */
  lemma EdgeLiesOnSide(e: nat)
    requires e < N_EDGES
    ensures exists s :: 0 <= s < N_SIDES && RealEdgeNodes(e) <= set n | n in SideNodesMap[s]
  {
    var s := if e < 3 then 0 else if e < 5 then 1 else 2;
    var row := EdgeNodesMap[e];
    if e < 3 {
      assert RealEdgeNodes(e) == {row[0], row[1], row[2]};
    } else {
      assert RealEdgeNodes(e) == {row[0], row[1]};
    }
    assert RealEdgeNodes(e) <= set n | n in SideNodesMap[s];
  }

  // ------------------------------------------------------------
  // Building sides and edges

  /**
   * build_side(i) without proxy: a fresh face whose j-th node is the
   * element's node side_nodes_map[i][j]; the base (side 0) is a Tri6 and
   * the three infinite sides are InfQuad6 faces; any other side is an error.
   */
  method BuildSide(elemNodes: seq<nat>, i: nat) returns (r: Result<Face, ElemError>)
    requires |elemNodes| == N_NODES
    ensures r.Ok? <==> i < N_SIDES
    ensures r.Err? ==> r.error == InvalidSide
    ensures r.Ok? ==> r.value.kind == (if i == 0 then Tri6 else InfQuad6)
    ensures r.Ok? ==> |r.value.nodes| == 6
    ensures r.Ok? ==> forall j :: 0 <= j < 6 ==> r.value.nodes[j] == elemNodes[SideNodesMap[i][j]]
  {
    var face := new nat[6];
    var kind := InfQuad6;
    if i == 0 {
      kind := Tri6;
      face[0] := elemNodes[0];
      face[1] := elemNodes[1];
      face[2] := elemNodes[2];
      face[3] := elemNodes[6];
      face[4] := elemNodes[7];
      face[5] := elemNodes[8];
    } else if i == 1 {
      face[0] := elemNodes[0];
      face[1] := elemNodes[1];
      face[2] := elemNodes[3];
      face[3] := elemNodes[4];
      face[4] := elemNodes[6];
      face[5] := elemNodes[9];
    } else if i == 2 {
      face[0] := elemNodes[1];
      face[1] := elemNodes[2];
      face[2] := elemNodes[4];
      face[3] := elemNodes[5];
      face[4] := elemNodes[7];
      face[5] := elemNodes[10];
    } else if i == 3 {
      face[0] := elemNodes[2];
      face[1] := elemNodes[0];
      face[2] := elemNodes[5];
      face[3] := elemNodes[3];
      face[4] := elemNodes[8];
      face[5] := elemNodes[11];
    } else {
      return Err(InvalidSide);
    }
    r := Ok(Face(kind, face[..]));
  }

  /** The nodes of a built side are exactly the element's nodes on that side. */
  lemma BuiltSideNodesAreSideMembers(elemNodes: seq<nat>, i: nat, face: Face, n: nat)
    requires |elemNodes| == N_NODES && i < N_SIDES
    requires |face.nodes| == 6 && forall j :: 0 <= j < 6 ==> face.nodes[j] == elemNodes[SideNodesMap[i][j]]
    requires n < N_NODES && n in SideNodesMap[i]
    ensures elemNodes[n] in face.nodes
  {
    var j :| 0 <= j < |SideNodesMap[i]| && SideNodesMap[i][j] == n;
    SideRowsWellFormed(i);
    assert face.nodes[j] == elemNodes[n];
  }

  /**
   * build_edge(i): the base edges 0..2 are Edge3 with the three nodes of
   * their row, the infinite edges InfEdge2 with the two real ones; the
   * sentinel is never read as a node.
   */
  function BuildEdge(elemNodes: seq<nat>, i: nat): (e: Edge)
    requires |elemNodes| == N_NODES && i < N_EDGES
    ensures e.kind == Edge3 <==> i < 3
    ensures |e.nodes| == (if i < 3 then 3 else 2)
    ensures forall j :: 0 <= j < |e.nodes| ==>
      EdgeNodesMap[i][j] in RealEdgeNodes(i) && e.nodes[j] == elemNodes[EdgeNodesMap[i][j]]
  {
    var row := EdgeNodesMap[i];
    if i < 3 then Edge(Edge3, [elemNodes[row[0]], elemNodes[row[1]], elemNodes[row[2]]])
    else Edge(InfEdge2, [elemNodes[row[0]], elemNodes[row[1]]])
  }

  // ------------------------------------------------------------
  // TECPLOT connectivity

  /**
   * connectivity(sc, TECPLOT): the eight 1-based node ids of sub-cell sc
   * as a collapsed hexahedron; any other sub-cell or IO package is an error.
   */
  method Connectivity(elemNodes: seq<nat>, sc: nat, iop: IOPackage) returns (r: Result<seq<nat>, ElemError>)
    requires |elemNodes| == N_NODES
    ensures r.Ok? <==> iop == Tecplot && sc < N_SUB_ELEM
    ensures r.Err? ==> r.error == if iop != Tecplot then UnsupportedIOPackage else InvalidSubElement
    ensures r.Ok? ==> |r.value| == 8
    ensures r.Ok? ==> forall j :: 0 <= j < 8 ==> r.value[j] == elemNodes[SubCellLocalNodes[sc][j]] + 1
    ensures r.Ok? ==> r.value[2] == r.value[3] && r.value[6] == r.value[7]
  {
    if iop != Tecplot {
      return Err(UnsupportedIOPackage);
    }
    var conn := new nat[8];
    if sc == 0 {
      conn[0] := elemNodes[0] + 1;
      conn[1] := elemNodes[6] + 1;
      conn[2] := elemNodes[8] + 1;
      conn[3] := elemNodes[8] + 1;
      conn[4] := elemNodes[3] + 1;
      conn[5] := elemNodes[9] + 1;
      conn[6] := elemNodes[11] + 1;
      conn[7] := elemNodes[11] + 1;
    } else if sc == 1 {
      conn[0] := elemNodes[6] + 1;
      conn[1] := elemNodes[7] + 1;
      conn[2] := elemNodes[8] + 1;
      conn[3] := elemNodes[8] + 1;
      conn[4] := elemNodes[9] + 1;
      conn[5] := elemNodes[10] + 1;
      conn[6] := elemNodes[11] + 1;
      conn[7] := elemNodes[11] + 1;
    } else if sc == 2 {
      conn[0] := elemNodes[6] + 1;
      conn[1] := elemNodes[1] + 1;
      conn[2] := elemNodes[7] + 1;
      conn[3] := elemNodes[7] + 1;
      conn[4] := elemNodes[9] + 1;
      conn[5] := elemNodes[4] + 1;
      conn[6] := elemNodes[10] + 1;
      conn[7] := elemNodes[10] + 1;
    } else if sc == 3 {
      conn[0] := elemNodes[8] + 1;
      conn[1] := elemNodes[7] + 1;
      conn[2] := elemNodes[2] + 1;
      conn[3] := elemNodes[2] + 1;
      conn[4] := elemNodes[11] + 1;
      conn[5] := elemNodes[10] + 1;
      conn[6] := elemNodes[5] + 1;
      conn[7] := elemNodes[5] + 1;
    } else {
      return Err(InvalidSubElement);
    }
    r := Ok(conn[..]);
  }

  /**
   * The sub-cell table's shape: each bottom node lies on the base side 0,
   * the top node above it is the same local node plus three, and the four
   * sub-cells together use every local node.
   */
  lemma SubCellsSplitThePrism(sc: nat)
    requires sc < N_SUB_ELEM
    ensures |SubCellLocalNodes[sc]| == 8
    ensures forall j :: 0 <= j < 4 ==> SubCellLocalNodes[sc][j] in SideNodesMap[0]
    ensures forall j :: 0 <= j < 4 ==> SubCellLocalNodes[sc][j + 4] == SubCellLocalNodes[sc][j] + 3
  {
  }

  lemma SubCellsCoverAllNodes(n: nat)
    requires n < N_NODES
    ensures exists sc, j :: 0 <= sc < N_SUB_ELEM && 0 <= j < 8 && SubCellLocalNodes[sc][j] == n
  {
    var p :=
      if n == 0 then (0, 0) else if n == 1 then (2, 1) else if n == 2 then (3, 2)
      else if n == 3 then (0, 4) else if n == 4 then (2, 5) else if n == 5 then (3, 6)
      else if n == 6 then (0, 1) else if n == 7 then (1, 1) else if n == 8 then (0, 2)
      else if n == 9 then (0, 5) else if n == 10 then (1, 5) else (0, 6);
    assert SubCellLocalNodes[p.0][p.1] == n;
  }

  // ------------------------------------------------------------
  // Second-order lookups

  /**
   * second_order_adjacent_vertex(n, v): the v-th vertex node n lies
   * between; it shares every side with n.
   */
  function SecondOrderAdjacentVertex(n: nat, v: nat): (r: nat)
    requires N_VERTICES <= n < N_NODES && v < 2
    ensures r < N_VERTICES
    ensures forall s :: 0 <= s < N_SIDES && n in SideNodesMap[s] ==> r in SideNodesMap[s]
    ensures n < 9 ==> r in EdgeNodesMap[n - N_VERTICES] && n in EdgeNodesMap[n - N_VERTICES]
  {
    SecondOrderAdjacentVertices[n - N_VERTICES][v]
  }

  /** The two adjacent vertices of a second-order node are different. */
  lemma AdjacentVerticesDistinct(n: nat)
    requires N_VERTICES <= n < N_NODES
    ensures SecondOrderAdjacentVertex(n, 0) != SecondOrderAdjacentVertex(n, 1)
  {
  }

  /**
   * second_order_child_vertex(n): the child and the vertex of that child
   * at which node n sits after refinement; the tables are read at n itself.
   */
  function SecondOrderChildVertex(n: nat): (r: (nat, nat))
    requires N_VERTICES <= n < N_NODES
    ensures r.0 < N_SUB_ELEM && r.1 < N_VERTICES
    ensures r.0 != INVALID_NODE && r.1 != INVALID_NODE
  {
    (SecondOrderVertexChildNumber[n], SecondOrderVertexChildIndex[n])
  }

  /** Reading the child tables at n - 6 instead of n would land on the vertex sentinel. */
  lemma ChildTablesIndexedByNode(n: nat)
    requires N_VERTICES <= n < N_NODES
    ensures SecondOrderVertexChildNumber[n - N_VERTICES] == INVALID_NODE
    ensures SecondOrderVertexChildIndex[n - N_VERTICES] == INVALID_NODE
    ensures forall k :: 0 <= k < N_NODES ==> (SecondOrderVertexChildNumber[k] == INVALID_NODE <==> k < N_VERTICES)
  {
  }
}
