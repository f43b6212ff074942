/**
 * The libMesh element types, the VTK cell types they are written as, and
 * the partial inverse used when reading an unstructured grid.
 */
module VtkTypes {
  import opened Wrappers

  datatype ElemType =
    | Edge2 | Edge3 | Edge4
    | Tri3 | Tri6
    | Quad4 | Quad8 | Quad9
    | Tet4 | Tet10
    | Hex8 | Hex20 | Hex27
    | Prism6 | Prism15 | Prism18
    | Pyramid5
    | InfEdge2 | InfQuad4 | InfQuad6 | InfHex8 | InfHex16 | InfHex18 | InfPrism6 | InfPrism12
    | NodeElem
    | InvalidElem

  /** The VTK cell types this interface knows; any other code read from a file is Other. */
  datatype VtkCellType =
    | Line | QuadraticEdge
    | Triangle | QuadraticTriangle
    | Quad | QuadraticQuad | BiquadraticQuad
    | Tetra | QuadraticTetra
    | Hexahedron | QuadraticHexahedron | TriquadraticHexahedron
    | Wedge | QuadraticWedge | BiquadraticQuadraticWedge
    | Pyramid
    | Other(code: nat)

  datatype VtkError =
    | ElemTypeNotImplemented(elemType: ElemType)
    | CellTypeNotImplemented(cellType: VtkCellType)

  /** The types get_elem_type writes on every VTK version. */
  const WritableTypes: set<ElemType> :=
    {Edge2, Edge3, Tri3, Tri6, Quad4, Quad8, Tet4, Tet10, Hex8, Hex20, Hex27,
     Prism6, Prism15, Prism18, Pyramid5}

  /** The types read builds from a VTK cell. */
  const ReadableTypes: set<ElemType> := {Tet4, Prism6, Hex8, Pyramid5, Hex20, Tet10}

  /**
   * get_elem_type(type): the VTK cell type of a libMesh element type.
   * Quad9 maps to BiquadraticQuad only when VTK is newer than 5.0;
   * every other type not listed is not implemented.
   */
  function GetElemType(t: ElemType, vtkHasBiquadraticQuad: bool): (r: Result<VtkCellType, VtkError>)
    ensures r.Ok? <==> t in WritableTypes || (t == Quad9 && vtkHasBiquadraticQuad)
    ensures r.Err? ==> r.error == ElemTypeNotImplemented(t)
    ensures r.Ok? ==> !r.value.Other?
  {
    match t
    case Edge2 => Ok(Line)
    case Edge3 => Ok(QuadraticEdge)
    case Tri3 => Ok(Triangle)
    case Tri6 => Ok(QuadraticTriangle)
    case Quad4 => Ok(Quad)
    case Quad8 => Ok(QuadraticQuad)
    case Tet4 => Ok(Tetra)
    case Tet10 => Ok(QuadraticTetra)
    case Hex8 => Ok(Hexahedron)
    case Hex20 => Ok(QuadraticHexahedron)
    case Hex27 => Ok(TriquadraticHexahedron)
    case Prism6 => Ok(Wedge)
    case Prism15 => Ok(QuadraticWedge)
    case Prism18 => Ok(BiquadraticQuadraticWedge)
    case Pyramid5 => Ok(Pyramid)
    case Quad9 => if vtkHasBiquadraticQuad then Ok(BiquadraticQuad) else Err(ElemTypeNotImplemented(t))
    case _ => Err(ElemTypeNotImplemented(t))
  }

  /** Distinct element types are written as distinct cell types. */
  lemma GetElemTypeInjective(a: ElemType, b: ElemType, flag: bool)
    requires GetElemType(a, flag).Ok? && GetElemType(b, flag).Ok?
    requires GetElemType(a, flag).value == GetElemType(b, flag).value
    ensures a == b
  {
  }

  /** The cell-type switch of read: six 3D cell types, everything else not implemented. */
  function CellToElem(c: VtkCellType): (r: Result<ElemType, VtkError>)
    ensures r.Ok? <==> c in {Tetra, Wedge, Hexahedron, Pyramid, QuadraticHexahedron, QuadraticTetra}
    ensures r.Ok? ==> r.value in ReadableTypes
    ensures r.Err? ==> r.error == CellTypeNotImplemented(c)
  {
    match c
    case Tetra => Ok(Tet4)
    case Wedge => Ok(Prism6)
    case Hexahedron => Ok(Hex8)
    case Pyramid => Ok(Pyramid5)
    case QuadraticHexahedron => Ok(Hex20)
    case QuadraticTetra => Ok(Tet10)
    case _ => Err(CellTypeNotImplemented(c))
  }

  /** A cell read back is written as the same cell type. */
  lemma ReadThenWrite(c: VtkCellType, flag: bool)
    requires CellToElem(c).Ok?
    ensures GetElemType(CellToElem(c).value, flag) == Ok(c)
  {
  }

  /** An element of a readable type written out is read back as the same type. */
  lemma WriteThenRead(t: ElemType, flag: bool)
    requires t in ReadableTypes
    ensures GetElemType(t, flag).Ok?
    ensures CellToElem(GetElemType(t, flag).value) == Ok(t)
  {
  }

  /** The dimension of an element type; infinite elements count their infinite direction. */
  function Dim(t: ElemType): (d: nat)
    requires t != InvalidElem
    ensures d <= 3
    ensures t in ReadableTypes ==> d == 3
  {
    match t
    case NodeElem => 0
    case Edge2 | Edge3 | Edge4 | InfEdge2 => 1
    case Tri3 | Tri6 | Quad4 | Quad8 | Quad9 | InfQuad4 | InfQuad6 => 2
    case Tet4 | Tet10 | Hex8 | Hex20 | Hex27 | Prism6 | Prism15 | Prism18 | Pyramid5
       | InfHex8 | InfHex16 | InfHex18 | InfPrism6 | InfPrism12 => 3
  }
}
