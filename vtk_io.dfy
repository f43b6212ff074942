/**
 * The bookkeeping of the VTK unstructured-grid reader and writer: the map
 * from mesh node ids to VTK point indices built while writing points and
 * cells, the per-variable value layout of nodal data, the cell-type switch
 * and "largest dimension seen" rule of reading, and the .pvtu name check.
 * Coordinates, the VTK objects themselves and file access are not modelled.
 */
module VtkIO {
  import opened Wrappers
  import opened VtkTypes

  // ------------------------------------------------------------
  // Node ids and point indices

  predicate Distinct(s: seq<nat>)
  {
    forall i, j :: 0 <= i < j < |s| ==> s[i] != s[j]
  }

  /**
   * _local_node_map and the grid's points agree: a mapped node id names a
   * point that carries that node, and every point is mapped back to its index.
   */
  ghost predicate Consistent(nodeMap: map<nat, nat>, points: seq<nat>)
  {
    && (forall id :: id in nodeMap ==> nodeMap[id] < |points| && points[nodeMap[id]] == id)
    && (forall p :: 0 <= p < |points| ==> points[p] in nodeMap && nodeMap[points[p]] == p)
  }

  /** Adding a new point for an unmapped node, under the next index, keeps the two in agreement. */
  lemma ConsistentAdd(nodeMap: map<nat, nat>, points: seq<nat>, id: nat)
    requires Consistent(nodeMap, points) && id !in nodeMap
    ensures Consistent(nodeMap[id := |points|], points + [id])
  {
    var m := nodeMap[id := |points|];
    var ps := points + [id];
    forall p | 0 <= p < |ps| ensures ps[p] in m && m[ps[p]] == p {
      if p < |points| {
        assert ps[p] == points[p];
      }
    }
  }

  /** The ids a sequence holds. */
  function Elements(s: seq<nat>): (r: set<nat>)
    ensures forall x :: x in r <==> x in s
  {
    if |s| == 0 then {}
    else
      assert forall x :: x in s <==> x == s[0] || x in s[1..];
      {s[0]} + Elements(s[1..])
  }

  /** A sequence of distinct ids has as many elements as its set. */
  lemma {:induction false} DistinctCard(s: seq<nat>)
    requires Distinct(s)
    ensures |Elements(s)| == |s|
  {
    if |s| > 0 {
      assert Distinct(s[1..]);
      DistinctCard(s[1..]);
      assert s[0] !in s[1..];
    }
  }

  /** In agreement, the map has exactly one entry per point, and the points are distinct. */
  lemma ConsistentCard(nodeMap: map<nat, nat>, points: seq<nat>)
    requires Consistent(nodeMap, points)
    ensures Distinct(points)
    ensures nodeMap.Keys == Elements(points)
    ensures |nodeMap| == |points|
  {
    forall id | id in nodeMap ensures id in Elements(points) {
      assert points[nodeMap[id]] == id;
    }
    DistinctCard(points);
    assert |nodeMap.Keys| == |nodeMap|;
  }

  // ------------------------------------------------------------
  // One connectivity entry of a cell, as written and as intended

  datatype PointTable = PointTable(nodeMap: map<nat, nat>, points: seq<nat>)

  /**
   * The point index cells_to_vtk records for entry i of an element's VTK
   * connectivity, as written: when connNode (conn[i]) is unmapped, a new
   * point is added for elemNode (elem->node(i)) and elemNode is mapped to
   * it; the subsequent map lookup of connNode then default-inserts 0.
   */
  function LookupOrAddAsWritten(t: PointTable, elemNode: nat, connNode: nat): (r: (PointTable, nat))
    ensures connNode in t.nodeMap ==> r == (t, t.nodeMap[connNode])
    ensures connNode !in t.nodeMap ==> |r.0.points| == |t.points| + 1 && r.0.points[|t.points|] == elemNode
    ensures connNode !in t.nodeMap && connNode != elemNode ==> r.1 == 0
  {
    if connNode in t.nodeMap then (t, t.nodeMap[connNode])
    else
      var local := |t.points|;
      var t1 := PointTable(t.nodeMap[elemNode := local], t.points + [elemNode]);
      if connNode in t1.nodeMap then (t1, t1.nodeMap[connNode])
      else (PointTable(t1.nodeMap[connNode := 0], t1.points), 0)
  }

  /**
   * With an empty map, an element whose connectivity entry 5 stands at
   * node slot holding 4: the cell entry is point 0, which carries node 4,
   * and node 5 is now mapped to a point that is not its own.
   */
  lemma AsWrittenCellPointsAtWrongNode()
    ensures var r := LookupOrAddAsWritten(PointTable(map[], []), 4, 5);
      && r.1 == 0 && r.0.points == [4] && r.0.points[r.1] != 5
      && !Consistent(r.0.nodeMap, r.0.points)
  {
    var r := LookupOrAddAsWritten(PointTable(map[], []), 4, 5);
    assert 5 in r.0.nodeMap && r.0.points[r.0.nodeMap[5]] == 4;
  }

  /**
   * The intended step: an unmapped connectivity node gets a new point
   * carrying it; the recorded index always names a point of that node.
   */
  function LookupOrAdd(t: PointTable, connNode: nat): (r: (PointTable, nat))
    requires Consistent(t.nodeMap, t.points)
    ensures Consistent(r.0.nodeMap, r.0.points)
    ensures r.1 < |r.0.points| && r.0.points[r.1] == connNode
    ensures t.points <= r.0.points
    ensures r.0.nodeMap.Keys == t.nodeMap.Keys + {connNode}
    ensures forall id :: id in t.nodeMap ==> r.0.nodeMap[id] == t.nodeMap[id]
  {
    if connNode in t.nodeMap then (t, t.nodeMap[connNode])
    else
      ConsistentAdd(t.nodeMap, t.points, connNode);
      (PointTable(t.nodeMap[connNode := |t.points|], t.points + [connNode]), |t.points|)
  }

  /** When conn[i] and elem->node(i) coincide, the written step is the intended one. */
  lemma AsWrittenAgreesWhenNodesCoincide(t: PointTable, node: nat)
    requires Consistent(t.nodeMap, t.points)
    ensures LookupOrAddAsWritten(t, node, node) == LookupOrAdd(t, node)
  {
  }

  /** A cell's point indices name points carrying its connectivity nodes, in order. */
  ghost predicate CellRefersTo(cell: seq<nat>, conn: seq<nat>, points: seq<nat>)
  {
    |cell| == |conn| && forall i :: 0 <= i < |cell| ==> cell[i] < |points| && points[cell[i]] == conn[i]
  }

  lemma CellRefersToGrow(cell: seq<nat>, conn: seq<nat>, points: seq<nat>, more: seq<nat>)
    requires CellRefersTo(cell, conn, points) && points <= more
    ensures CellRefersTo(cell, conn, more)
  {
    forall i | 0 <= i < |cell| ensures cell[i] < |more| && more[cell[i]] == conn[i] {
      assert more[cell[i]] == points[cell[i]];
    }
  }

  /**
   * The table and the cell's point indices after the corrected step has run
   * over each connectivity entry in turn.
   */
  function AddConn(t: PointTable, conn: seq<nat>): (r: (PointTable, seq<nat>))
    requires Consistent(t.nodeMap, t.points)
    ensures Consistent(r.0.nodeMap, r.0.points)
    ensures CellRefersTo(r.1, conn, r.0.points)
    ensures t.points <= r.0.points
    ensures r.0.nodeMap.Keys == t.nodeMap.Keys + (set id | id in conn)
    ensures forall id :: id in t.nodeMap ==> r.0.nodeMap[id] == t.nodeMap[id]
    ensures forall p :: |t.points| <= p < |r.0.points| ==> r.0.points[p] in conn && r.0.points[p] !in t.nodeMap
  {
    if |conn| == 0 then (t, [])
    else
      var init := conn[..|conn| - 1];
      var p := AddConn(t, init);
      var q := LookupOrAdd(p.0, conn[|conn| - 1]);
      CellRefersToGrow(p.1, init, p.0.points, q.0.points);
      assert conn == init + [conn[|conn| - 1]];
      (q.0, p.1 + [q.1])
  }

  /** The nodes a connectivity list names. */
  function EntrySet(conn: seq<nat>): set<nat>
  {
    set j | 0 <= j < |conn| :: conn[j]
  }

  /** One more connectivity entry is one more corrected step. */
  lemma AddConnStep(t: PointTable, conn: seq<nat>, i: nat)
    requires Consistent(t.nodeMap, t.points) && i < |conn|
    ensures var p := AddConn(t, conn[..i]);
      var q := LookupOrAdd(p.0, conn[i]);
      AddConn(t, conn[..i + 1]) == (q.0, p.1 + [q.1])
  {
    assert conn[..i + 1][..i] == conn[..i];
  }

  /** The connectivity nodes of a run of elements. */
  function ConnNodes(elems: seq<OutElem>): set<nat>
  {
    if |elems| == 0 then {}
    else ConnNodes(elems[..|elems| - 1]) + EntrySet(elems[|elems| - 1].vtkConn)
  }

  /** A node is a connectivity node of the run exactly when some entry of some element names it. */
  lemma {:induction false} ConnNodesMembers(elems: seq<OutElem>, id: nat)
    ensures id in ConnNodes(elems) <==>
      exists k, j :: 0 <= k < |elems| && 0 <= j < |elems[k].vtkConn| && elems[k].vtkConn[j] == id
  {
    if |elems| > 0 {
      var n := |elems| - 1;
      var init := elems[..n];
      ConnNodesMembers(init, id);
      if id in ConnNodes(elems) && id !in ConnNodes(init) {
        var j :| 0 <= j < |elems[n].vtkConn| && elems[n].vtkConn[j] == id;
        assert elems[n].vtkConn[j] == id;
      }
      if exists k, j :: 0 <= k < |elems| && 0 <= j < |elems[k].vtkConn| && elems[k].vtkConn[j] == id {
        var k, j :| 0 <= k < |elems| && 0 <= j < |elems[k].vtkConn| && elems[k].vtkConn[j] == id;
        if k < n {
          assert init[k].vtkConn[j] == id;
        } else {
          assert id in elems[n].vtkConn;
        }
      }
    }
  }

  /** Adding the next element's connectivity nodes to the map's keys gives the nodes of one more element. */
  lemma ConnNodesStep(keys0: set<nat>, keys: set<nat>, elems: seq<OutElem>, n: nat)
    requires n < |elems| && keys == keys0 + ConnNodes(elems[..n])
    ensures keys + EntrySet(elems[n].vtkConn) == keys0 + ConnNodes(elems[..n + 1])
  {
    assert elems[..n + 1][..n] == elems[..n];
  }

  /** A map that sends the k-th of distinct nodes to k, and holds nothing else, is the local table's map. */
  lemma LocalTableMap(m: map<nat, nat>, localNodes: seq<nat>)
    requires Distinct(localNodes)
    requires m.Keys == set id | id in localNodes
    requires forall k :: 0 <= k < |localNodes| ==> m[localNodes[k]] == k
    ensures m == LocalTable(localNodes).nodeMap
  {
    var l := LocalTable(localNodes).nodeMap;
    forall id | id in m ensures id in l && l[id] == m[id] {
      var k :| 0 <= k < |localNodes| && localNodes[k] == id;
      assert l[localNodes[k]] == k;
    }
  }

  /** The table nodes_to_vtk builds from a cleared map: the k-th local node is point k. */
  function LocalTable(localNodes: seq<nat>): (r: PointTable)
    requires Distinct(localNodes)
    ensures Consistent(r.nodeMap, r.points)
    ensures r.points == localNodes
    ensures r.nodeMap.Keys == set id | id in localNodes
  {
    var m := map k | 0 <= k < |localNodes| :: localNodes[k] := k;
    assert forall k :: 0 <= k < |localNodes| ==> localNodes[k] in m && m[localNodes[k]] == k;
    PointTable(m, localNodes)
  }

  /** Each cell of a run names the points of its element's connectivity nodes. */
  ghost predicate CellsReferTo(cs: seq<seq<nat>>, elems: seq<OutElem>, points: seq<nat>)
  {
    |cs| == |elems| && forall k :: 0 <= k < |cs| ==> CellRefersTo(cs[k], elems[k].vtkConn, points)
  }

  /** Appending points keeps a run of cells right, and one more right cell extends it. */
  lemma CellsReferToExtend(cs: seq<seq<nat>>, elems: seq<OutElem>, n: nat, points: seq<nat>,
                           more: seq<nat>, cell: seq<nat>)
    requires n < |elems|
    requires CellsReferTo(cs, elems[..n], points) && points <= more
    requires CellRefersTo(cell, elems[n].vtkConn, more)
    ensures CellsReferTo(cs + [cell], elems[..n + 1], more)
  {
    forall k | 0 <= k < |cs| ensures CellRefersTo(cs[k], elems[k].vtkConn, more) {
      CellRefersToGrow(cs[k], elems[k].vtkConn, points, more);
    }
    var cs' := cs + [cell];
    forall k | 0 <= k < |cs'| ensures CellRefersTo(cs'[k], elems[..n + 1][k].vtkConn, more) {
      if k < |cs| {
        assert cs'[k] == cs[k];
      }
    }
  }

  /** Each cell type of a run is the VTK type of its element. */
  ghost predicate TypesMatch(ts: seq<VtkCellType>, elems: seq<OutElem>, vtkHasBiquadraticQuad: bool)
  {
    |ts| == |elems| && forall k :: 0 <= k < |ts| ==> Ok(ts[k]) == GetElemType(elems[k].elemType, vtkHasBiquadraticQuad)
  }

  lemma TypesMatchExtend(ts: seq<VtkCellType>, elems: seq<OutElem>, n: nat, flag: bool, t: VtkCellType)
    requires n < |elems|
    requires TypesMatch(ts, elems[..n], flag) && Ok(t) == GetElemType(elems[n].elemType, flag)
    ensures TypesMatch(ts + [t], elems[..n + 1], flag)
  {
    var ts' := ts + [t];
    forall k | 0 <= k < |ts'| ensures Ok(ts'[k]) == GetElemType(elems[..n + 1][k].elemType, flag) {
      if k < |ts| {
        assert ts'[k] == ts[k];
      }
    }
  }

  // ------------------------------------------------------------
  // Nodal data layout

  /** soln[k*num_vars + v]: variable v at node k in a node-major solution. */
  function SolutionIndex(k: nat, numVars: nat, v: nat): nat
  {
    k * numVars + v
  }

  /** Every (node, variable) pair inside the mesh has its own index inside the solution. */
  lemma SolutionIndexInRange(k: nat, numVars: nat, v: nat, nNodes: nat)
    requires k < nNodes && v < numVars
    ensures SolutionIndex(k, numVars, v) < nNodes * numVars
  {
    assert k * numVars + numVars == (k + 1) * numVars;
    assert (k + 1) * numVars <= nNodes * numVars by {
      MulMonotone(k + 1, nNodes, numVars);
    }
  }

  lemma SolutionIndexInjective(k1: nat, v1: nat, k2: nat, v2: nat, numVars: nat)
    requires v1 < numVars && v2 < numVars
    requires SolutionIndex(k1, numVars, v1) == SolutionIndex(k2, numVars, v2)
    ensures k1 == k2 && v1 == v2
  {
    SolutionIndexOrdered(k1, v1, k2, v2, numVars);
    SolutionIndexOrdered(k2, v2, k1, v1, numVars);
  }

  /** Indices of a lower node come before all indices of a higher one. */
  lemma SolutionIndexOrdered(k1: nat, v1: nat, k2: nat, v2: nat, numVars: nat)
    requires v1 < numVars
    ensures k1 < k2 ==> SolutionIndex(k1, numVars, v1) < SolutionIndex(k2, numVars, v2)
  {
    if k1 < k2 {
      MulMonotone(k1 + 1, k2, numVars);
      assert (k1 + 1) * numVars == k1 * numVars + numVars;
    }
  }

  lemma MulMonotone(a: nat, b: nat, c: nat)
    requires a <= b
    ensures a * c <= b * c
  {
  }

  /** The value of variable v the writer takes for a node: none for nodes at or above num_nodes. */
  function NodeValue(soln: seq<Number>, nNodes: nat, numVars: nat, v: nat, node: nat): (r: Option<Number>)
    requires v < numVars && |soln| >= nNodes * numVars
    ensures r.Some? <==> node < nNodes
    ensures r.Some? ==> SolutionIndex(node, numVars, v) < |soln| && r.value == soln[SolutionIndex(node, numVars, v)]
  {
    if node < nNodes then
      SolutionIndexInRange(node, numVars, v, nNodes);
      Some(soln[SolutionIndex(node, numVars, v)])
    else None
  }

  /** A data array holds, for each point, the value of variable v at the node that point carries. */
  ghost predicate HoldsVariable(values: seq<Option<Number>>, points: seq<nat>,
                                soln: seq<Number>, nNodes: nat, numVars: nat, v: nat)
    requires v < numVars && |soln| >= nNodes * numVars
  {
    |values| == |points| && forall p :: 0 <= p < |points| ==> values[p] == NodeValue(soln, nNodes, numVars, v, points[p])
  }

  // ------------------------------------------------------------
  // The file name check

  /** std::string::rfind(c): the last position holding c. */
  function LastIndexOf(s: string, c: char): (r: Option<nat>)
    ensures r.None? <==> c !in s
    ensures r.Some? ==> r.value < |s| && s[r.value] == c
    ensures r.Some? ==> forall j :: r.value < j < |s| ==> s[j] != c
  {
    if |s| == 0 then None
    else if s[|s| - 1] == c then Some(|s| - 1)
    else
      var r := LastIndexOf(s[..|s| - 1], c);
      assert s == s[..|s| - 1] + [s[|s| - 1]];
      r
  }

  /** The suffix from the last '.' is ".pvtu"; without a '.' there is no suffix to compare. */
  predicate HasPvtuSuffix(fname: string)
  {
    match LastIndexOf(fname, '.')
    case None => false
    case Some(p) => fname[p..] == ".pvtu"
  }

  /** The check accepts exactly the names ending in ".pvtu". */
  lemma PvtuSuffixIsEndsWith(fname: string)
    ensures HasPvtuSuffix(fname) <==> |fname| >= 5 && fname[|fname| - 5..] == ".pvtu"
  {
    var n := |fname|;
    if n >= 5 && fname[n - 5..] == ".pvtu" {
      assert fname[n - 5] == '.';
      assert forall j :: n - 5 < j < n ==> fname[j] == fname[n - 5..][j - (n - 5)] != '.';
      var p := LastIndexOf(fname, '.');
      assert p == Some(n - 5);
    }
    if HasPvtuSuffix(fname) {
      var p := LastIndexOf(fname, '.').value;
      assert |fname[p..]| == 5;
    }
  }

  // ------------------------------------------------------------
  // Reading: dimension rule

  /** The mesh dimension after setting it for each flagged d in 0..n-1 in turn: the last set wins. */
  function LastFlagged(flags: seq<bool>, n: nat, current: nat): (r: nat)
    requires n <= |flags|
    ensures (exists d :: 0 <= d < n && flags[d]) ==> r < n && flags[r] && forall d :: r < d < n ==> !flags[d]
    ensures (forall d :: 0 <= d < n ==> !flags[d]) ==> r == current
  {
    if n == 0 then current
    else if flags[n - 1] then n - 1
    else LastFlagged(flags, n - 1, current)
  }

  /** The loop that sets the mesh dimension to every flagged dimension in increasing order. */
  method SetMeshDimension(flags: seq<bool>, current: nat) returns (dim: nat)
    requires |flags| == 4
    ensures dim == LastFlagged(flags, 4, current)
  {
    dim := current;
    for i := 0 to 4
      invariant dim == LastFlagged(flags, i, current)
    {
      if flags[i] {
        dim := i;
      }
    }
  }

  // ------------------------------------------------------------
  // Inputs and outputs

  /** An active local element as the writer sees it: its type and its VTK connectivity. */
  datatype OutElem = OutElem(elemType: ElemType, vtkConn: seq<nat>)

  /** The mesh being written: its node count, its local node ids in order, its active local elements. */
  datatype OutMesh = OutMesh(nNodes: nat, localNodes: seq<nat>, activeLocalElems: seq<OutElem>)

  /** A named per-point array; None marks a value never set. */
  datatype DataArray = DataArray(name: string, values: seq<Option<Number>>)

  datatype VtkCell = VtkCell(cellType: VtkCellType, pointIds: seq<nat>)
  datatype VtkGrid = VtkGrid(nPoints: nat, cells: seq<VtkCell>)

  datatype ReadElem = ReadElem(id: nat, elemType: ElemType, nodes: seq<nat>)
  datatype ReadMesh = ReadMesh(nodeIds: seq<nat>, elems: seq<ReadElem>, dimension: nat)

  class VtkInterface {
    /** Whether the VTK library is newer than 5.0 (it then has the biquadratic quad). */
    const vtkHasBiquadraticQuad: bool

    var localNodeMap: map<nat, nat>
    /** The grid's points, each given by the mesh node whose coordinates it carries. */
    var points: seq<nat>
    var cells: seq<seq<nat>>
    var cellTypes: seq<VtkCellType>
    var pointData: seq<DataArray>
    var elemsOfDimension: seq<bool>

    constructor (vtkHasBiquadraticQuad: bool)
      ensures this.vtkHasBiquadraticQuad == vtkHasBiquadraticQuad
      ensures localNodeMap == map[] && points == [] && cells == [] && cellTypes == [] && pointData == []
      ensures elemsOfDimension == []
    {
      this.vtkHasBiquadraticQuad := vtkHasBiquadraticQuad;
      localNodeMap := map[];
      points := [];
      cells := [];
      cellTypes := [];
      pointData := [];
      elemsOfDimension := [];
    }

    /**
     * nodes_to_vtk(): the k-th local node becomes point k, and its id is
     * mapped to k; the grid's points are replaced by the local nodes.
     */
    method NodesToVtk(localNodes: seq<nat>)
      requires Distinct(localNodes)
      modifies this`localNodeMap, this`points
      ensures points == localNodes
      ensures forall k :: 0 <= k < |localNodes| ==> localNodes[k] in localNodeMap && localNodeMap[localNodes[k]] == k
      ensures localNodeMap.Keys == old(localNodeMap).Keys + (set id | id in localNodes)
      ensures forall id :: id in old(localNodeMap) && id !in localNodes ==> localNodeMap[id] == old(localNodeMap)[id]
      ensures old(localNodeMap) == map[] ==> Consistent(localNodeMap, points)
      ensures old(localNodeMap) == map[] ==> PointTable(localNodeMap, points) == LocalTable(localNodes)
    {
      var coords: seq<nat> := [];
      var counter := 0;
      while counter < |localNodes|
        invariant counter <= |localNodes|
        invariant coords == localNodes[..counter]
        invariant forall k :: 0 <= k < counter ==> localNodes[k] in localNodeMap && localNodeMap[localNodes[k]] == k
        invariant localNodeMap.Keys == old(localNodeMap).Keys + (set id | id in localNodes[..counter])
        invariant forall id :: id in old(localNodeMap) && id !in localNodes[..counter] ==> localNodeMap[id] == old(localNodeMap)[id]
        invariant old(localNodeMap) == map[] ==> forall id :: id in localNodeMap ==> localNodeMap[id] < counter && localNodes[localNodeMap[id]] == id
      {
        var node := localNodes[counter];
        localNodeMap := localNodeMap[node := counter];
        coords := coords + [node];
        assert localNodes[..counter + 1] == localNodes[..counter] + [node];
        counter := counter + 1;
      }
      assert localNodes[..counter] == localNodes;
      points := coords;
      if old(localNodeMap) == map[] {
        LocalTableMap(localNodeMap, localNodes);
      }
    }

    /**
     * The inner loop of cells_to_vtk for one element, with conn[i] as the
     * key of a ghost node: returns the cell's point indices.
     */
    method AddCell(conn: seq<nat>) returns (cell: seq<nat>)
      requires Consistent(localNodeMap, points)
      modifies this`localNodeMap, this`points
      ensures Consistent(localNodeMap, points)
      ensures CellRefersTo(cell, conn, points)
      ensures old(points) <= points
      ensures localNodeMap.Keys == old(localNodeMap).Keys + (set id | id in conn)
      ensures forall id :: id in old(localNodeMap) ==> localNodeMap[id] == old(localNodeMap)[id]
      ensures (PointTable(localNodeMap, points), cell) == AddConn(PointTable(old(localNodeMap), old(points)), conn)
    {
      ghost var t0 := PointTable(localNodeMap, points);
      cell := [];
      var i := 0;
      while i < |conn|
        invariant i <= |conn|
        invariant (PointTable(localNodeMap, points), cell) == AddConn(t0, conn[..i])
      {
        var t := LookupOrAdd(PointTable(localNodeMap, points), conn[i]);
        AddConnStep(t0, conn, i);
        assert (t.0, cell + [t.1]) == AddConn(t0, conn[..i + 1]);
        localNodeMap, points := t.0.nodeMap, t.0.points;
        cell := cell + [t.1];
        i := i + 1;
      }
      assert conn[..i] == conn;
    }

    /**
     * One pass of the element loop of cells_to_vtk: the element's cell is
     * added, then its VTK cell type, which fails for a type VTK cannot take.
     */
    method AddElement(e: OutElem) returns (r: Result<(), VtkError>)
      requires Consistent(localNodeMap, points)
      modifies this`localNodeMap, this`points, this`cells, this`cellTypes
      ensures Consistent(localNodeMap, points) && old(points) <= points
      ensures localNodeMap.Keys == old(localNodeMap).Keys + EntrySet(e.vtkConn)
      ensures |cells| == old(|cells|) + 1 && cells == old(cells) + [cells[old(|cells|)]]
      ensures CellRefersTo(cells[old(|cells|)], e.vtkConn, points)
      ensures r.Ok? <==> GetElemType(e.elemType, vtkHasBiquadraticQuad).Ok?
      ensures r.Ok? ==> cellTypes == old(cellTypes) + [GetElemType(e.elemType, vtkHasBiquadraticQuad).value]
      ensures r.Err? ==> r.error == GetElemType(e.elemType, vtkHasBiquadraticQuad).error
    {
      var cell := AddCell(e.vtkConn);
      cells := cells + [cell];
      var cellType := GetElemType(e.elemType, vtkHasBiquadraticQuad);
      if cellType.Err? {
        return Err(cellType.error);
      }
      cellTypes := cellTypes + [cellType.value];
      r := Ok(());
    }

    /**
     * cells_to_vtk(): one cell per active local element, in order, with
     * the VTK cell type of the element; an element type VTK cannot take is
     * an error.
     */
    method CellsToVtk(elems: seq<OutElem>) returns (r: Result<(), VtkError>)
      requires Consistent(localNodeMap, points)
      modifies this`localNodeMap, this`points, this`cells, this`cellTypes
      ensures Consistent(localNodeMap, points)
      ensures old(points) <= points
      ensures r.Ok? <==> forall k :: 0 <= k < |elems| ==> GetElemType(elems[k].elemType, vtkHasBiquadraticQuad).Ok?
      ensures r.Ok? ==> |cells| == old(|cells|) + |elems| && cells[..old(|cells|)] == old(cells)
      ensures r.Ok? ==> CellsReferTo(cells[old(|cells|)..], elems, points)
      ensures r.Ok? ==> |cellTypes| == old(|cellTypes|) + |elems| && cellTypes[..old(|cellTypes|)] == old(cellTypes)
      ensures r.Ok? ==> TypesMatch(cellTypes[old(|cellTypes|)..], elems, vtkHasBiquadraticQuad)
      ensures r.Ok? ==> localNodeMap.Keys == old(localNodeMap).Keys + ConnNodes(elems)
    {
      ghost var c0 := |cells|;
      ghost var t0 := |cellTypes|;
      ghost var newCells: seq<seq<nat>> := [];
      ghost var newTypes: seq<VtkCellType> := [];
      ghost var keys0 := localNodeMap.Keys;
      var counter := 0;
      while counter < |elems|
        invariant counter <= |elems|
        invariant localNodeMap.Keys == keys0 + ConnNodes(elems[..counter])
        invariant Consistent(localNodeMap, points) && old(points) <= points
        invariant cells == old(cells) + newCells && cellTypes == old(cellTypes) + newTypes
        invariant CellsReferTo(newCells, elems[..counter], points)
        invariant TypesMatch(newTypes, elems[..counter], vtkHasBiquadraticQuad)
      {
        ghost var before := points;
        ConnNodesStep(keys0, localNodeMap.Keys, elems, counter);
        r := AddElement(elems[counter]);
        if r.Err? {
          assert !GetElemType(elems[counter].elemType, vtkHasBiquadraticQuad).Ok?;
          return;
        }
        ghost var cell, cellType := cells[|cells| - 1], cellTypes[|cellTypes| - 1];
        CellsReferToExtend(newCells, elems, counter, before, points, cell);
        TypesMatchExtend(newTypes, elems, counter, vtkHasBiquadraticQuad, cellType);
        newCells, newTypes := newCells + [cell], newTypes + [cellType];
        counter := counter + 1;
      }
      assert elems[..counter] == elems;
      assert cells[..c0] == old(cells) && cells[c0..] == newCells;
      assert cellTypes[..t0] == old(cellTypes) && cellTypes[t0..] == newTypes;
      r := Ok(());
    }

    /**
     * The values of variable v: point p gets soln[k*num_vars + v] for the
     * node k it carries when k is below num_nodes, and is left unset otherwise.
     */
    method VariableValues(nNodes: nat, soln: seq<Number>, numVars: nat, v: nat)
      returns (values: seq<Option<Number>>)
      requires Consistent(localNodeMap, points)
      requires v < numVars && |soln| >= nNodes * numVars
      ensures |values| == |localNodeMap|
      ensures HoldsVariable(values, points, soln, nNodes, numVars, v)
    {
      assert |localNodeMap| == |points| by {
        ConsistentCard(localNodeMap, points);
      }
      var data := new Option<Number>[|localNodeMap|](_ => None);
      for k := 0 to nNodes
        invariant data.Length == |points|
        invariant forall p :: 0 <= p < |points| ==>
          data[p] == if points[p] < k then NodeValue(soln, nNodes, numVars, v, points[p]) else None
      {
        if k in localNodeMap {
          var local := localNodeMap[k];
          assert points[local] == k;
          data[local] := NodeValue(soln, nNodes, numVars, v, k);
        }
      }
      values := data[..];
    }

    /**
     * write_nodal_data(fname, soln, names): a fresh grid with the local
     * nodes, then the cells (adding ghost nodes), then one array per
     * variable name holding that variable's value at each point.
     */
    method WriteNodalData(fname: string, mesh: OutMesh, soln: seq<Number>, names: seq<string>)
      returns (r: Result<(), VtkError>)
      requires HasPvtuSuffix(fname)
      requires Distinct(mesh.localNodes)
      requires |soln| >= mesh.nNodes * |names|
      modifies this`localNodeMap, this`points, this`cells, this`cellTypes, this`pointData
      ensures r.Ok? <==> forall k :: 0 <= k < |mesh.activeLocalElems| ==>
        GetElemType(mesh.activeLocalElems[k].elemType, vtkHasBiquadraticQuad).Ok?
      ensures Consistent(localNodeMap, points)
      ensures mesh.localNodes <= points
      ensures r.Ok? ==> |cells| == |mesh.activeLocalElems| && forall k :: 0 <= k < |cells| ==>
        CellRefersTo(cells[k], mesh.activeLocalElems[k].vtkConn, points)
      ensures r.Ok? ==> |cellTypes| == |mesh.activeLocalElems| && forall k :: 0 <= k < |cellTypes| ==>
        Ok(cellTypes[k]) == GetElemType(mesh.activeLocalElems[k].elemType, vtkHasBiquadraticQuad)
      ensures r.Ok? ==> localNodeMap.Keys == (set id | id in mesh.localNodes) + ConnNodes(mesh.activeLocalElems)
      ensures r.Ok? ==> |pointData| == |names|
      ensures r.Ok? ==> forall v :: 0 <= v < |names| ==>
        pointData[v].name == names[v] && HoldsVariable(pointData[v].values, points, soln, mesh.nNodes, |names|, v)
    {
      points, cells, cellTypes, pointData := [], [], [], [];
      localNodeMap := map[];
      NodesToVtk(mesh.localNodes);
      r := CellsToVtk(mesh.activeLocalElems);
      if r.Err? {
        return;
      }
      if |names| > 0 {
        AddVariableArrays(mesh.nNodes, soln, names);
      }
    }

    /** One data array per variable name, in order, each holding that variable's values. */
    method AddVariableArrays(nNodes: nat, soln: seq<Number>, names: seq<string>)
      requires Consistent(localNodeMap, points)
      requires pointData == [] && |soln| >= nNodes * |names|
      modifies this`pointData
      ensures |pointData| == |names|
      ensures forall v :: 0 <= v < |names| ==>
        pointData[v].name == names[v] && HoldsVariable(pointData[v].values, points, soln, nNodes, |names|, v)
    {
      var numVars := |names|;
      for v := 0 to numVars
        invariant |pointData| == v
        invariant forall w :: 0 <= w < v ==>
          pointData[w].name == names[w] && HoldsVariable(pointData[w].values, points, soln, nNodes, numVars, w)
      {
        var values := VariableValues(nNodes, soln, numVars, v);
        pointData := pointData + [DataArray(names[v], values)];
      }
    }

    /** write(name): the mesh alone, with no data arrays. */
    method Write(fname: string, mesh: OutMesh) returns (r: Result<(), VtkError>)
      requires HasPvtuSuffix(fname)
      requires Distinct(mesh.localNodes)
      modifies this`localNodeMap, this`points, this`cells, this`cellTypes, this`pointData
      ensures r.Ok? <==> forall k :: 0 <= k < |mesh.activeLocalElems| ==>
        GetElemType(mesh.activeLocalElems[k].elemType, vtkHasBiquadraticQuad).Ok?
      ensures Consistent(localNodeMap, points)
      ensures mesh.localNodes <= points
      ensures r.Ok? ==> pointData == []
      ensures r.Ok? ==> |cells| == |mesh.activeLocalElems| && forall k :: 0 <= k < |cells| ==>
        CellRefersTo(cells[k], mesh.activeLocalElems[k].vtkConn, points)
      ensures r.Ok? ==> |cellTypes| == |mesh.activeLocalElems| && forall k :: 0 <= k < |cellTypes| ==>
        Ok(cellTypes[k]) == GetElemType(mesh.activeLocalElems[k].elemType, vtkHasBiquadraticQuad)
      ensures r.Ok? ==> localNodeMap.Keys == (set id | id in mesh.localNodes) + ConnNodes(mesh.activeLocalElems)
    {
      r := WriteNodalData(fname, mesh, [], []);
    }

    /**
     * read(name) on a grid already loaded: point i becomes node i, cell i
     * element i of the type the cell-type switch gives, with the cell's
     * point ids as nodes; the dimension flags are reset and set per
     * element, and the mesh dimension is the largest flagged one.
     */
    method Read(grid: VtkGrid, dimensionAfterClear: nat) returns (r: Result<ReadMesh, VtkError>)
      modifies this`elemsOfDimension
      ensures |elemsOfDimension| == 4
      ensures r.Ok? <==> forall i :: 0 <= i < |grid.cells| ==> CellToElem(grid.cells[i].cellType).Ok?
      ensures r.Err? ==> exists i :: 0 <= i < |grid.cells| && r.error == CellTypeNotImplemented(grid.cells[i].cellType)
      ensures r.Ok? ==> |r.value.nodeIds| == grid.nPoints && forall i :: 0 <= i < grid.nPoints ==> r.value.nodeIds[i] == i
      ensures r.Ok? ==> |r.value.elems| == |grid.cells| && forall i :: 0 <= i < |grid.cells| ==>
        r.value.elems[i] == ReadElem(i, CellToElem(grid.cells[i].cellType).value, grid.cells[i].pointIds)
      ensures r.Ok? ==> forall d :: 0 <= d < 4 ==>
        (elemsOfDimension[d] <==> exists i :: 0 <= i < |grid.cells| && Dim(r.value.elems[i].elemType) == d)
      ensures r.Ok? ==> r.value.dimension == LastFlagged(elemsOfDimension, 4, dimensionAfterClear)
    {
      elemsOfDimension := [false, false, false, false];
      var nodeIds: seq<nat> := [];
      for i := 0 to grid.nPoints
        invariant |nodeIds| == i && forall j :: 0 <= j < i ==> nodeIds[j] == j
      {
        nodeIds := nodeIds + [i];
      }
      var elems: seq<ReadElem> := [];
      for i := 0 to |grid.cells|
        invariant |elemsOfDimension| == 4
        invariant |elems| == i
        invariant forall j :: 0 <= j < i ==> CellToElem(grid.cells[j].cellType).Ok?
        invariant forall j :: 0 <= j < i ==>
          elems[j] == ReadElem(j, CellToElem(grid.cells[j].cellType).value, grid.cells[j].pointIds)
        invariant forall d :: 0 <= d < 4 ==>
          (elemsOfDimension[d] <==> exists j :: 0 <= j < i && Dim(elems[j].elemType) == d)
      {
        var cell := grid.cells[i];
        var elemType := CellToElem(cell.cellType);
        if elemType.Err? {
          return Err(elemType.error);
        }
        var elem := ReadElem(i, elemType.value, cell.pointIds);
        elemsOfDimension := elemsOfDimension[Dim(elem.elemType) := true];
        elems := elems + [elem];
      }
      var dim := SetMeshDimension(elemsOfDimension, dimensionAfterClear);
      r := Ok(ReadMesh(nodeIds, elems, dim));
    }
  }

  /** Every readable type is three-dimensional, so a grid with a cell reads as a 3D mesh. */
  lemma ReadMeshIsThreeDimensional(flags: seq<bool>, elems: seq<ReadElem>, current: nat)
    requires |flags| == 4 && |elems| > 0
    requires forall i :: 0 <= i < |elems| ==> elems[i].elemType in ReadableTypes
    requires forall d :: 0 <= d < 4 ==> (flags[d] <==> exists i :: 0 <= i < |elems| && Dim(elems[i].elemType) == d)
    ensures LastFlagged(flags, 4, current) == 3
  {
    assert Dim(elems[0].elemType) == 3;
  }
}
