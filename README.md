# libMesh System state, InfPrism12 topology and VTK bookkeeping in Dafny

This project models three parts of libMesh and proves properties about them.

- **The `System` state container** (`libmesh/include/systems/system.h`), as the class `Systems.System`. It holds:
  - the variable registry: `_variables` and `_variable_numbers`;
  - the named additional vectors and their projection flags: `_vectors` and `_vector_projections`;
  - the solution-projection flag, the one-way "can add vectors" seal that `init()` closes, and the active flag;
  - the indexed vector families (adjoint solutions, sensitivity solutions, adjoint and sensitivity right-hand sides, weighted-sensitivity vectors).
  
  `_vectors` is a `std::map`, so it is modelled as a sequence of entries whose keys strictly increase in lexicographic order (`SortedStore`, `StringOrder`). Numbering by `vec_num` is therefore name order, not insertion order. `System::BuildProjectionList` is the class `ProjectionList.BuildProjectionList`: `join` concatenates send-lists, and `unique` sorts them and drops duplicates.
- **The 12-node infinite prism** (`src/geom/cell_inf_prism12.C`): its constant side, edge, sub-cell and second-order tables; the vertex, edge and face node classes; side and edge construction as node selection; and TECPLOT sub-cell connectivity.
- **The VTK reader and writer bookkeeping** (`src/mesh/vtk_io.C`):
  - the libMesh-to-VTK element type map and its partial inverse in `read`;
  - the map from mesh node ids to VTK point indices;
  - the `soln[k*num_vars + v]` value layout;
  - the "largest dimension seen" rule;
  - the `.pvtu` name check.

  VTK objects, coordinates and files are not modelled.

The bodies of `system.C` are not part of this model. Where the header only declares an operation, the model makes its own choice for what the body does; "## Left out" lists those choices.

## Model

| member | source | states |
|---|---|---|
| Variables.MakeVariable | libmesh/include/systems/system.h:691-701 | the constructor without a subdomain set gives a variable with that name, rank and type that is implicitly active and active on every subdomain |
| Variables.Variable.ActiveOnSubdomain | libmesh/include/systems/system.h:736-743 | active_on_subdomain: an empty subdomain set means every subdomain, otherwise membership (stated by ImplicitlyActiveEverywhere and RestrictedActiveExactly) |
| Variables.Variable.ImplicitlyActive | libmesh/include/systems/system.h:745-751 | implicitly_active: the subdomain set is empty |
| Variables.ImplicitlyActiveEverywhere | libmesh/include/systems/system.h:736-751 | a variable with an empty subdomain set is active on every subdomain |
| Variables.RestrictedActiveExactly | libmesh/include/systems/system.h:736-743 | a variable with a non-empty subdomain set is active on a subdomain exactly when the set contains it |
| Variables.ActiveSomewhere | libmesh/include/systems/system.h:736-751 | the empty set means "everywhere", so every variable is active on some subdomain |
| StringOrder.LessIrreflexive | libmesh/include/systems/system.h:1189 | no name orders before itself in the map's key order |
| StringOrder.LessAsymmetric | libmesh/include/systems/system.h:1189 | two names never order before each other |
| StringOrder.LessTotal | libmesh/include/systems/system.h:1189 | of two different names one orders before the other |
| StringOrder.LessTransitive | libmesh/include/systems/system.h:1189 | the key order is transitive |
| SortedStore.Lookup | libmesh/include/systems/system.h:460-470 | a lookup finds a value exactly when the key is present, and the value found is the entry stored under that key |
| SortedStore.InsertKeys | libmesh/include/systems/system.h:1184-1189 | inserting adds exactly the new key and one entry |
| SortedStore.InsertSorted | libmesh/include/systems/system.h:1184-1189 | inserting a new key into a map with strictly increasing keys keeps the keys strictly increasing |
| SortedStore.InsertLookup | libmesh/include/systems/system.h:1184-1189 | after inserting, the new key finds the new value and every other key finds what it found before |
| SortedStore.InsertEntries | libmesh/include/systems/system.h:1184-1189 | the entries after inserting are the old entries plus the new one |
| SortedStore.SortedKeysCard | libmesh/include/systems/system.h:1457-1461 | the map's size equals its number of distinct keys |
| SortedStore.SortedKeyPositionUnique | libmesh/include/systems/system.h:1189 | each key sits at exactly one position of the map's iteration order |
| VectorNames.Decimal | libmesh/include/systems/system.h:520-642 | the decimal rendering of a family index is non-empty and made of digits only |
| VectorNames.DecimalInjective | libmesh/include/systems/system.h:520-642 | different indices render differently |
| VectorNames.FamilyName | libmesh/include/systems/system.h:520-642 | the name a family vector is stored under: a digit-free family prefix followed by the decimal index, or one fixed name for the weighted-sensitivity solution; FamilyNameInjective proves distinct keys get distinct names |
| VectorNames.FamilyNameInjective | libmesh/include/systems/system.h:520-642 | two family vector keys (family and index, or the unindexed weighted-sensitivity solution) with the same name are the same key |
| Systems.UnsignedSub | libmesh/include/systems/system.h:1441-1445 | unsigned subtraction is the difference when it fits and wraps modulo 2^32 otherwise |
| Systems.System.constructor | libmesh/include/systems/system.h:1170-1207 | a new system has no variables and no additional vectors; it is active, projects its solution and is open for vectors |
| Systems.System.Init | libmesh/include/systems/system.h:433-436 | after init no further vectors may be added, and the state stays consistent |
| Systems.System.Activate | libmesh/include/systems/system.h:1380-1384 | the system is active afterwards |
| Systems.System.Deactivate | libmesh/include/systems/system.h:1388-1392 | the system is inactive afterwards |
| Systems.System.SetProjectSolutionOnReinit | libmesh/include/systems/system.h:446-452 | assigning through project_solution_on_reinit() sets the solution projection flag |
| Systems.System.NActiveDofs | libmesh/include/systems/system.h:1441-1445 | the active DOF count is below 2^32, and is the total minus the constrained count (at most the total) whenever the constrained count does not exceed the total |
| Systems.System.GetVariable | libmesh/include/systems/system.h:1403-1409 | for i below n_vars the i-th registered variable is returned, and its rank is i |
| Systems.System.NVars | libmesh/include/systems/system.h:1394-1399 | n_vars(): the number of variables, which in a valid System equals the number of names in _variable_numbers |
| Systems.System.VariableName | libmesh/include/systems/system.h:1413-1419 | the i-th variable's name, and looking that name up gives back i |
| Systems.System.VariableType | libmesh/include/systems/system.h:1423-1429 | the i-th variable's FE type, for i below n_vars; it is what variable_type(variable_name(i)) returns |
| Systems.System.HasVariable | libmesh/include/systems/system.h:783-786 | true exactly when some registered variable carries the name |
| Systems.System.VariableNumber | libmesh/include/systems/system.h:793-797 | the rank of the variable of that name, which names it back; not found exactly when no variable has the name |
| Systems.System.VariableTypeByName | libmesh/include/systems/system.h:1433-1437 | the type of the variable that variable_number selects; not found when the name is unknown |
| Systems.RegistryAppend | libmesh/include/systems/system.h:1170-1176 | appending a variable with a fresh name and the next rank keeps `_variables` and `_variable_numbers` in agreement |
| Systems.System.AddVariable | libmesh/include/systems/system.h:760-766 | for a new name: returns the old n_vars, n_vars grows by one, the variable is appended with that rank, type and subdomain set (none meaning everywhere), and the name looks up to it. A repeated name is an error that changes nothing |
| Systems.System.AddVariableByOrder | libmesh/include/systems/system.h:768-776 | the overload taking an order and a family (FIRST and LAGRANGE by default) behaves as add_variable with that FE type: for a new name it returns the old n_vars, appends exactly one variable of that rank and type and keeps the old ones; a repeated name is an error that changes nothing |
| Systems.System.HaveVector | libmesh/include/systems/system.h:1449-1453 | true exactly when the name is a key of `_vectors` |
| Systems.System.NVectors | libmesh/include/systems/system.h:1457-1461 | the number of additional vectors is the number of distinct names |
| Systems.System.RequestVector | libmesh/include/systems/system.h:460-470 | null exactly when have_vector is false; a vector found has the solution's length |
| Systems.System.GetVector | libmesh/include/systems/system.h:486-498 | the vector request_vector finds; asking for a missing name is an error |
| Systems.System.AdvanceIterator | libmesh/include/systems/system.h:472-484 | advancing from vectors_begin() vec_num times, stopping at the end, reaches position min(vec_num, n_vectors) |
| Systems.System.RequestVectorAt | libmesh/include/systems/system.h:472-484 | null exactly when vec_num >= n_vectors; otherwise the vector stored under the vec_num-th name in name order |
| Systems.System.GetVectorAt | libmesh/include/systems/system.h:500-512 | the vec_num-th vector; past the end is an error |
| Systems.System.VectorName | libmesh/include/systems/system.h:514-518 | the vec_num-th name, which is a vector's name and follows every earlier name in lexicographic order; past the end is an error |
| Systems.InsertIntoStore | libmesh/include/systems/system.h:1184-1195 | adding a new name keeps the store sorted, adds exactly that key (to the store and to the projection flags alike), grows the name count by one, keeps every other lookup and keeps every vector at the solution's length |
| Systems.LookupAt | libmesh/include/systems/system.h:1189 | the entry at a position of the store is what a lookup of its name finds |
| Systems.System.AddVector | libmesh/include/systems/system.h:433-444 | a present name returns its vector with no change. A new name is refused once init has sealed the store. Otherwise it gets a zero vector of the solution's length and its projection flag (default true); n_vectors grows by one, have_vector holds, and every other name's vector is unchanged |
| Systems.System.AddFamilyVector | libmesh/include/systems/system.h:520-642 | add_adjoint_solution(i) and the other add_* accessors create the family vector only if absent. A second call returns the same vector and changes nothing. A creating call adds one zero vector of the solution's length with projection flag true, or fails once init has sealed the store; every vector under any other name, family or not, is unchanged |
| Systems.System.HaveFamilyVector | libmesh/include/systems/system.h:520-524 | whether a family vector already exists: its name is a key of _vectors |
| Systems.System.GetFamilyVector | libmesh/include/systems/system.h:520-642 | get_* finds the family vector exactly when it was created, with the solution's length |
| ProjectionList.InsertUniqueSpec | libmesh/include/systems/system.h:1240-1249 | inserting an index into a sorted duplicate-free list keeps it sorted and duplicate-free and adds exactly that index |
| ProjectionList.SortedUnique | libmesh/include/systems/system.h:1240-1249 | sorting and removing duplicates gives a strictly increasing list holding exactly the same indices |
| ProjectionList.HeadIsMinimum | libmesh/include/systems/system.h:1240-1249 | in a strictly increasing list every element is at least the first |
| ProjectionList.IncreasingListsWithSameElementsAreEqual | libmesh/include/systems/system.h:1240-1249 | two strictly increasing lists with the same indices are equal, so the unique form is canonical |
| ProjectionList.JoinOrderIrrelevantAfterUnique | libmesh/include/systems/system.h:1265-1267 | after unique, the order in which two send-lists were joined does not matter |
| ProjectionList.UniqueIdempotent | libmesh/include/systems/system.h:1265 | unique of a unique list changes nothing |
| ProjectionList.JoinedListNeedsUnique | libmesh/include/systems/system.h:1240-1249 | a joined list can be unsorted with a repeated index, and unique then yields the sorted distinct indices |
| ProjectionList.BuildProjectionList.constructor | libmesh/include/systems/system.h:1256-1258 | a new builder starts with an empty send-list |
| ProjectionList.BuildProjectionList.Split | libmesh/include/systems/system.h:1260-1262 | the splitting constructor starts with an empty send-list |
| ProjectionList.BuildProjectionList.Join | libmesh/include/systems/system.h:1267 | the other worker's send-list is appended, so the result holds the indices of both |
| ProjectionList.BuildProjectionList.Unique | libmesh/include/systems/system.h:1265 | the send-list becomes strictly increasing with the same indices as before |
| InfPrism12.NodeClassesPartition | src/geom/cell_inf_prism12.C:61-82 | every local node index is exactly one of vertex (below 3), edge node (3 to 8) or face node (above 8) |
| InfPrism12.IsVertex | src/geom/cell_inf_prism12.C:61-66 | is_vertex: node i is a vertex exactly when i is below 3 (the partition is stated by NodeClassesPartition) |
| InfPrism12.IsEdge | src/geom/cell_inf_prism12.C:68-75 | is_edge: node i is an edge node exactly when it is neither below 3 nor above 8 |
| InfPrism12.IsFace | src/geom/cell_inf_prism12.C:77-82 | is_face: node i is a face node exactly when it is above 8 |
| InfPrism12.IsNodeOnSide | src/geom/cell_inf_prism12.C:84-92 | for s < 4 the search answers true exactly when n occurs in row s of the side table |
| InfPrism12.IsNodeOnEdge | src/geom/cell_inf_prism12.C:94-102 | for e < 6 the search answers true exactly when n occurs in row e of the edge table, sentinel included |
| InfPrism12.EdgeNodeCounts | src/geom/cell_inf_prism12.C:47-55 | the base edges 0-2 have three real nodes; the infinite edges 3-5 have two, with 99 as their third entry |
| InfPrism12.SideRowsWellFormed | src/geom/cell_inf_prism12.C:39-45 | each side lists six distinct local nodes below 12 |
| InfPrism12.EveryNodeOnSomeSide | src/geom/cell_inf_prism12.C:39-45 | every local node lies on some side |
| InfPrism12.EdgeLiesOnSide | src/geom/cell_inf_prism12.C:39-55 | the real nodes of every edge lie together on one side |
| InfPrism12.BuildSide | src/geom/cell_inf_prism12.C:132-199 | for sides 0-3 the j-th face node is the element's node side_nodes_map[i][j]. Side 0 gives a Tri6 and the others an InfQuad6; any other side is an error |
| InfPrism12.BuiltSideNodesAreSideMembers | src/geom/cell_inf_prism12.C:132-199 | every element node on a side appears among the built face's nodes |
| InfPrism12.BuildEdge | src/geom/cell_inf_prism12.C:208-216 | edges 0-2 are Edge3 with three nodes and edges 3-5 are InfEdge2 with two, taken from the edge table; the sentinel is never used as a node |
| InfPrism12.Connectivity | src/geom/cell_inf_prism12.C:219-299 | for TECPLOT and sub-cells 0-3: eight entries, each an element node id plus 1, with entry 2 equal to entry 3 and entry 6 equal to entry 7. Any other sub-cell or IO package is an error |
| InfPrism12.SubCellsSplitThePrism | src/geom/cell_inf_prism12.C:232-290 | each sub-cell's four bottom nodes lie on the base side, and each top node is its bottom node plus three |
| InfPrism12.SubCellsCoverAllNodes | src/geom/cell_inf_prism12.C:232-290 | every local node is used by some sub-cell |
| InfPrism12.SecondOrderAdjacentVertex | src/geom/cell_inf_prism12.C:305-325 | for 6 <= n < 12 and v < 2 the answer is a vertex index below 6 that lies on every side containing n, and on n's own edge for base edge nodes |
| InfPrism12.AdjacentVerticesDistinct | src/geom/cell_inf_prism12.C:316-325 | the two vertices adjacent to a second-order node differ |
| InfPrism12.SecondOrderChildVertex | src/geom/cell_inf_prism12.C:329-356 | for 6 <= n < 12 the child number is below 4 and the child vertex below 6, never the sentinel |
| InfPrism12.ChildTablesIndexedByNode | src/geom/cell_inf_prism12.C:329-356 | the child tables are read at n itself: their entries are 99 exactly at the vertices, so reading them at n - 6 would give the sentinel |
| VtkTypes.GetElemType | src/mesh/vtk_io.C:74-150 | the supported types (EDGE2 through PYRAMID5, plus QUAD9 when VTK is newer than 5.0) map to a VTK cell type; EDGE4, every INF* type, NODEELEM and INVALID_ELEM are an error |
| VtkTypes.GetElemTypeInjective | src/mesh/vtk_io.C:74-150 | different element types are written as different cell types |
| VtkTypes.CellToElem | src/mesh/vtk_io.C:367-392 | TETRA, WEDGE, HEXAHEDRON, PYRAMID, QUADRATIC_HEXAHEDRON and QUADRATIC_TETRA give a readable element type; any other cell type is an error |
| VtkTypes.ReadThenWrite | src/mesh/vtk_io.C:367-392 | a cell type read in is written back as the same cell type |
| VtkTypes.WriteThenRead | src/mesh/vtk_io.C:97-123 | a readable element type written out is read back as the same type |
| VtkTypes.Dim | src/mesh/vtk_io.C:408 | element dimensions are at most 3, and every readable type is three-dimensional |
| VtkIO.ConsistentAdd | src/mesh/vtk_io.C:213-227 | adding a point for an unmapped node under the next index keeps the node map and the points in agreement |
| VtkIO.Elements | src/mesh/vtk_io.C:476 | the set of ids of a sequence holds exactly its members |
| VtkIO.DistinctCard | src/mesh/vtk_io.C:476 | a sequence of distinct ids has as many members as elements |
| VtkIO.ConsistentCard | src/mesh/vtk_io.C:476 | when map and points agree, the points are distinct and the map's size equals the number of points |
| VtkIO.LookupOrAddAsWritten | src/mesh/vtk_io.C:213-227 | as written: an unmapped conn[i] adds a point for elem->node(i); if the two differ, the recorded index is 0 |
| VtkIO.AsWrittenCellPointsAtWrongNode | src/mesh/vtk_io.C:213-227 | with an empty map, node slot 4 and connectivity entry 5, the cell entry names a point carrying node 4, and the map no longer agrees with the points |
| VtkIO.LookupOrAdd | src/mesh/vtk_io.C:213-227 | corrected step: the recorded index names a point carrying conn[i]; agreement is kept, points only grow, and old mappings stay |
| VtkIO.AsWrittenAgreesWhenNodesCoincide | src/mesh/vtk_io.C:213-227 | when conn[i] equals elem->node(i) the written step is the corrected one |
| VtkIO.AddConn | src/mesh/vtk_io.C:211-228 | running the corrected step over a connectivity list keeps map and points in agreement, yields a cell naming each entry's point, only appends points, each of them an entry not mapped before, and adds exactly the entries to the map's keys without changing old mappings |
| VtkIO.ConnNodesMembers | src/mesh/vtk_io.C:203-228 | a node is among the connectivity nodes of a run of elements exactly when some entry of some element's connectivity names it |
| VtkIO.LocalTable | src/mesh/vtk_io.C:153-188 | from a cleared map, nodes_to_vtk's table has the local nodes as points, their ids as keys, and map and points agree |
| VtkIO.CellRefersToGrow | src/mesh/vtk_io.C:205-228 | a cell that names its points correctly keeps doing so as points are appended |
| VtkIO.VtkInterface.NodesToVtk | src/mesh/vtk_io.C:153-188 | the k-th local node becomes point k and its id maps to k; starting from an empty map, map and points agree |
| VtkIO.VtkInterface.AddCell | src/mesh/vtk_io.C:205-228 | with the corrected ghost-node step (see ## Findings): the new table and the cell are exactly those of running the step over the connectivity entries in order, so a new point is appended for each unmapped node at its first occurrence; each cell entry names a point carrying the matching connectivity node, map and points still agree, points only grow, and exactly the connectivity nodes are added to the map |
| VtkIO.VtkInterface.AddElement | src/mesh/vtk_io.C:205-232 | one pass of the element loop: the cell is appended and names its nodes' points, the map grows by the element's connectivity nodes, and the cell type is appended exactly when get_elem_type accepts the element's type, failing with its error otherwise |
| VtkIO.VtkInterface.CellsToVtk | src/mesh/vtk_io.C:191-236 | with the corrected ghost-node step (see ## Findings): one cell per active local element, in order, naming points that carry its connectivity nodes, and typed by get_elem_type; the map's keys grow by exactly the elements' connectivity nodes, so an empty element list adds no key. It fails exactly when some element type is unsupported |
| VtkIO.SolutionIndexInRange | src/mesh/vtk_io.C:484 | k*num_vars + v lies inside a solution of num_nodes*num_vars values |
| VtkIO.SolutionIndexInjective | src/mesh/vtk_io.C:484 | different (node, variable) pairs use different solution entries |
| VtkIO.SolutionIndexOrdered | src/mesh/vtk_io.C:484 | all entries of a lower node come before those of a higher node |
| VtkIO.NodeValue | src/mesh/vtk_io.C:480-485 | a node below num_nodes takes soln[k*num_vars + v] (an index inside the solution); other nodes take no value |
| VtkIO.VtkInterface.VariableValues | src/mesh/vtk_io.C:470-487 | one value slot per map entry; each point holds the value of the node it carries, and only nodes below num_nodes are written |
| VtkIO.VtkInterface.AddVariableArrays | src/mesh/vtk_io.C:465-489 | one named array per variable, in order, each laid out as above |
| VtkIO.VtkInterface.WriteNodalData | src/mesh/vtk_io.C:435-522 | with the corrected ghost-node step (see ## Findings): requires the .pvtu suffix. The map is rebuilt from scratch: its keys are exactly the local nodes and the elements' connectivity nodes, the local nodes come first as points, and map and points agree. The call fails exactly on an unsupported element type; otherwise each cell names its nodes' points, each cell type is get_elem_type of its element, and one array per name holds that variable's values |
| VtkIO.VtkInterface.Write | src/mesh/vtk_io.C:527-531 | write_nodal_data with no solution and no names: fails exactly on an unsupported element type; otherwise the cells name their nodes' points, the cell types are get_elem_type of the elements, the points and map are those of the local nodes and then the connectivity nodes, and no data array is added |
| VtkIO.LastIndexOf | src/mesh/vtk_io.C:451 | rfind: the last position holding the character, or none when it does not occur |
| VtkIO.PvtuSuffixIsEndsWith | src/mesh/vtk_io.C:451 | the suffix from the last '.' equals ".pvtu" exactly when the name ends in ".pvtu" |
| VtkIO.HasPvtuSuffix | src/mesh/vtk_io.C:451 | the assertion's test: the name has a '.' and its text from the last '.' on is ".pvtu" |
| VtkIO.LastFlagged | src/mesh/vtk_io.C:415-417 | the dimension after the loop is the largest flagged one, or the previous one when no flag is set |
| VtkIO.SetMeshDimension | src/mesh/vtk_io.C:415-417 | the loop over dimensions 0-3 leaves the largest flagged dimension |
| VtkIO.VtkInterface.Read | src/mesh/vtk_io.C:310-432 | point i becomes node i and cell i becomes element i of the switch's type, keeping the cell's point ids. Dimension flags are reset to four false values and then set per element; the mesh dimension is the largest flagged one. An unsupported cell type is an error |
| VtkIO.ReadMeshIsThreeDimensional | src/mesh/vtk_io.C:408-417 | every readable type is 3D, so a grid with at least one cell reads as a 3D mesh |

## Left out

- The bodies in `system.C` (`add_vector`, `add_variable`, `init`, the family accessors, `join`, `unique`) are not part of this model. For `add_vector`, `add_variable` and the family accessors on a name not yet used, and for `unique`, the model follows the header's declarations and doc-comments.
- ProjectionList.BuildProjectionList.Join: the header says only that the joined list is unsorted and may contain duplicates. Modelling `join` as concatenation of the two send-lists is the model's own choice.
- Systems.System.Init: the distribution of degrees of freedom that `init` performs is not modelled. The model keeps only what the header's `add_vector` comment implies, that no vector can be added after `init`.
- Systems.System.AddVector: the header does not say what a repeated name does, and the body in `system.C` is not part of this model. The model chooses to return the existing vector and change nothing, which is what the family accessors need to create a vector only when it is absent.
- Systems.System.AddVariable: the header does not say what a repeated name does, and the body in `system.C` is not part of this model. The model chooses to return an error and change nothing.
- VtkIO.VtkInterface.AddCell, VtkIO.VtkInterface.AddElement, VtkIO.VtkInterface.CellsToVtk, VtkIO.VtkInterface.WriteNodalData, VtkIO.VtkInterface.Write: these run the corrected ghost-node step `LookupOrAdd`, not the step as written at `src/mesh/vtk_io.C:213-227`. On a ghost node whose connectivity slot differs from its node slot, the written code behaves as `LookupOrAddAsWritten` does (see ## Findings), and these methods do not capture that.
- Systems.System.AddFamilyVector: uses add_vector's default projection flag (true). The flag each family really passes is set in `system.C`.
- VectorNames.FamilyName: the literal family name strings are defined in `system.C`. The model uses distinct digit-free prefixes followed by the decimal index, and proves only that the naming is injective.
- Systems.System.VariableNumber: `_variable_numbers` holds `unsigned short` values; the 16-bit limit on the number of variables is not modelled.
- Systems.System.NActiveDofs: the DOF counts come from the DofMap, which is not part of this model; they are fields bounded below 2^32.
- Vector contents are abstract values: only "zero-filled" and "the solution's length" are modelled. Distribution across processors and PETSc storage are not modelled.
- Persistence (`read_header`, `read_serialized_data`, `write_parallel_data` and the rest) uses Xdr I/O and MPI, and is not modelled.
- Not modelled, because they involve MPI, threads or floating-point FE math:
  - vector and solution projection (`ProjectVector`, `ProjectSolution`, `BuildProjectionList::operator()`);
  - `update_global_solution`;
  - `calculate_norm`.
- User-supplied callback functions and the default solve family, which only report "not implemented", are not modelled.
- The InfPrism12 embedding matrix (floating-point refinement coefficients) and the proxy branch of `build_side` are not modelled; the proxy branch builds library `Side<>` wrappers.
- VtkIO.VtkInterface.Read: the node reshuffle through each element's own VTK connectivity (`src/mesh/vtk_io.C:395-405`) is not modelled; elements keep the cell's point ids. The VTK reader, the foreign-id bookkeeping of MeshData and point coordinates are not modelled either.
- VtkIO.VtkInterface.WriteNodalData: the VTK writer object, the partition and ghost-level settings, compression and the file itself are not modelled. `system_vectors_to_vtk` is not modelled either (a rank-0 collective plus VTK calls).
- Node coordinates are not modelled: a point is identified by the mesh node it carries.
- The processor-id assertion at the start of `read` and the LIBMESH_DIM check after it are not modelled.

## Findings

| source | as written | input that shows it | evidently intended | confidence | as-written member | corrected member |
|---|---|---|---|---|---|---|
| src/mesh/vtk_io.C:213-227 | when `conn[i]` is not in `_local_node_map`, the new point is made for `elem->node(i)` and stored under the key `elem->node(i)`; the following `_local_node_map[conn[i]]` then default-inserts `conn[i]` with index 0 | an element whose VTK connectivity lists a ghost node in a different slot than its own node list, e.g. empty map, `elem->node(i)` = 4, `conn[i]` = 5: the cell records point 0, which carries node 4 | make the new point for `conn[i]` and map `conn[i]` to it, so every cell entry names the point of its own node | not executed | VtkIO.AsWrittenCellPointsAtWrongNode | VtkIO.LookupOrAdd |
