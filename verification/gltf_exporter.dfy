/**
 * The hand-written glTF exporter: the VTK to glTF component-type mapping, the
 * single byte buffer every actor's data is appended to, the buffer views,
 * accessors, mesh, node and scene entry each actor adds, the encoding of the
 * polygon point ids, and the filter that decides which actors of a renderer
 * contribute geometry.
 *
 * The tinygltf model is a class whose fields are its arrays; renderers, props,
 * actors, mappers and data objects are values.
 */
module GltfExporter {
  import opened Wrappers

  newtype uint8 = x: int | 0 <= x < 256

  // VTK data type ids.
  const VTK_CHAR: int := 2
  const VTK_UNSIGNED_CHAR: int := 3
  const VTK_SHORT: int := 4
  const VTK_UNSIGNED_SHORT: int := 5
  const VTK_INT: int := 6
  const VTK_UNSIGNED_INT: int := 7
  const VTK_FLOAT: int := 10
  const VTK_DOUBLE: int := 11
  const VTK_SIGNED_CHAR: int := 15

  // glTF component types, as tinygltf numbers them.
  const COMPONENT_BYTE: int := 5120
  const COMPONENT_UNSIGNED_BYTE: int := 5121
  const COMPONENT_SHORT: int := 5122
  const COMPONENT_UNSIGNED_SHORT: int := 5123
  const COMPONENT_INT: int := 5124
  const COMPONENT_UNSIGNED_INT: int := 5125
  const COMPONENT_FLOAT: int := 5126
  const COMPONENT_DOUBLE: int := 5130

  const TYPE_VEC3: int := 3
  const TYPE_SCALAR: int := 65
  const TARGET_ARRAY_BUFFER: int := 34962
  const MODE_TRIANGLES: int := 4

  // ---------------------------------------------------------------------------
  // Component types

  /** GetGltfComponentTypeFromVtkDataType: -1 for an unsupported type. */
  function ComponentTypeOf(vtkType: int): int
  {
    if vtkType == VTK_CHAR || vtkType == VTK_SIGNED_CHAR then COMPONENT_BYTE
    else if vtkType == VTK_UNSIGNED_CHAR then COMPONENT_UNSIGNED_BYTE
    else if vtkType == VTK_SHORT then COMPONENT_SHORT
    else if vtkType == VTK_UNSIGNED_SHORT then COMPONENT_UNSIGNED_SHORT
    else if vtkType == VTK_INT then COMPONENT_INT
    else if vtkType == VTK_UNSIGNED_INT then COMPONENT_UNSIGNED_INT
    else if vtkType == VTK_FLOAT then COMPONENT_FLOAT
    else if vtkType == VTK_DOUBLE then COMPONENT_DOUBLE
    else -1
  }

  /** Size in bytes of one value of a VTK type; 0 for the types not listed. */
  function VtkTypeSize(vtkType: int): nat
  {
    if vtkType in {VTK_CHAR, VTK_SIGNED_CHAR, VTK_UNSIGNED_CHAR} then 1
    else if vtkType in {VTK_SHORT, VTK_UNSIGNED_SHORT} then 2
    else if vtkType in {VTK_INT, VTK_UNSIGNED_INT, VTK_FLOAT} then 4
    else if vtkType == VTK_DOUBLE then 8
    else 0
  }

  /** Size in bytes of one component of a glTF component type; 0 for other numbers. */
  function ComponentSize(componentType: int): nat
  {
    if componentType in {COMPONENT_BYTE, COMPONENT_UNSIGNED_BYTE} then 1
    else if componentType in {COMPONENT_SHORT, COMPONENT_UNSIGNED_SHORT} then 2
    else if componentType in {COMPONENT_INT, COMPONENT_UNSIGNED_INT, COMPONENT_FLOAT} then 4
    else if componentType == COMPONENT_DOUBLE then 8
    else 0
  }

  predicate SignedVtkType(vtkType: int)
  {
    vtkType in {VTK_CHAR, VTK_SIGNED_CHAR, VTK_SHORT, VTK_INT, VTK_FLOAT, VTK_DOUBLE}
  }

  predicate SignedComponentType(componentType: int)
  {
    componentType in {COMPONENT_BYTE, COMPONENT_SHORT, COMPONENT_INT, COMPONENT_FLOAT, COMPONENT_DOUBLE}
  }

  /**
   * The nine supported VTK types map to a glTF type of the same width and
   * signedness; every other type maps to -1.
   */
  lemma ComponentTypeSpec(vtkType: int)
    ensures ComponentTypeOf(vtkType) != -1 <==> VtkTypeSize(vtkType) > 0
    ensures ComponentTypeOf(vtkType) != -1 ==>
      && ComponentSize(ComponentTypeOf(vtkType)) == VtkTypeSize(vtkType)
      && (SignedComponentType(ComponentTypeOf(vtkType)) <==> SignedVtkType(vtkType))
  {
  }

  /** The glTF 2.0 accessor component types (section 3.6.2.2 of the glTF 2.0 specification). */
  predicate AllowedByGltf2(componentType: int)
  {
    componentType in {COMPONENT_BYTE, COMPONENT_UNSIGNED_BYTE, COMPONENT_SHORT, COMPONENT_UNSIGNED_SHORT,
                      COMPONENT_UNSIGNED_INT, COMPONENT_FLOAT}
  }

  /** VTK_INT and VTK_DOUBLE map to component types glTF 2.0 accessors do not allow. */
  lemma IntAndDoubleOutsideGltf2(vtkType: int)
    ensures ComponentTypeOf(vtkType) != -1 ==>
      (AllowedByGltf2(ComponentTypeOf(vtkType)) <==> vtkType != VTK_INT && vtkType != VTK_DOUBLE)
  {
  }

  // ---------------------------------------------------------------------------
  // Integer conversions of the index encoding

  /** static_cast<unsigned int> of a point id. */
  function ToUnsigned32(v: int): (u: nat)
    ensures u < 0x1_0000_0000
  {
    v % 0x1_0000_0000
  }

  /** static_cast<int> of an unsigned int: two's complement. */
  function ToSigned32(u: nat): (s: int)
    requires u < 0x1_0000_0000
    ensures -0x8000_0000 <= s < 0x8000_0000
    ensures (s - u) % 0x1_0000_0000 == 0
  {
    if u < 0x8000_0000 then u else u - 0x1_0000_0000
  }

  /** An int pushed into a vector of unsigned char: its low eight bits. */
  function LowByte(x: int): uint8
  {
    (x % 256) as uint8
  }

  /** The four bytes pushed for one point id: `v >> 24`, `v >> 16`, `v >> 8`, `v` of the int value. */
  function EncodeId(id: int): (b: seq<uint8>)
    ensures |b| == 4
  {
    var intValue := ToSigned32(ToUnsigned32(id));
    [LowByte(intValue / 0x100_0000), LowByte(intValue / 0x1_0000), LowByte(intValue / 0x100), LowByte(intValue)]
  }

  /** Reference definition: a 32-bit value, most significant byte first. */
  function BigEndian(u: nat): seq<uint8>
    requires u < 0x1_0000_0000
  {
    [(u / 0x100_0000 % 256) as uint8, (u / 0x1_0000 % 256) as uint8, (u / 0x100 % 256) as uint8, (u % 256) as uint8]
  }

  function DecodeBigEndian(b: seq<uint8>): nat
    requires |b| == 4
  {
    b[0] as nat * 0x100_0000 + b[1] as nat * 0x1_0000 + b[2] as nat * 0x100 + b[3] as nat
  }

  /** How a glTF reader reads an UNSIGNED_INT: least significant byte first. */
  function DecodeLittleEndian(b: seq<uint8>): nat
    requires |b| == 4
  {
    b[0] as nat + b[1] as nat * 0x100 + b[2] as nat * 0x1_0000 + b[3] as nat * 0x100_0000
  }

  /**
   * The arithmetic shifts of the signed value give the bytes of the unsigned
   * value: each id is written as its low 32 bits, most significant byte first.
   */
  lemma EncodeIdIsBigEndian(id: int)
    ensures EncodeId(id) == BigEndian(ToUnsigned32(id))
  {
    var u: int := ToUnsigned32(id);
    var s := ToSigned32(u);
    if u >= 0x8000_0000 {
      assert s == u - 0x1_0000_0000;
      ShiftedDiv(u);
      ShiftedMod(u / 0x100_0000, 1);
      ShiftedMod(u / 0x1_0000, 0x100);
      ShiftedMod(u / 0x100, 0x1_0000);
      ShiftedMod(u, 0x100_0000);
    }
  }

  lemma ShiftedDiv(u: int)
    ensures (u - 0x1_0000_0000) / 0x100_0000 == u / 0x100_0000 - 0x100
    ensures (u - 0x1_0000_0000) / 0x1_0000 == u / 0x1_0000 - 0x1_0000
    ensures (u - 0x1_0000_0000) / 0x100 == u / 0x100 - 0x100_0000
  {
  }

  lemma ShiftedMod(x: int, k: int)
    ensures (x - k * 0x100) % 0x100 == x % 0x100
  {
  }

  lemma DivDiv(x: int)
    ensures x / 0x1_0000 == x / 0x100 / 0x100
    ensures x / 0x100_0000 == x / 0x1_0000 / 0x100
  {
  }

  /** The four byte digits of a 32-bit value add back up to it. */
  lemma Recompose(u: int)
    requires 0 <= u < 0x1_0000_0000
    ensures (u / 0x100_0000 % 256) * 0x100_0000 + (u / 0x1_0000 % 256) * 0x1_0000 + (u / 0x100 % 256) * 0x100 + u % 256 == u
  {
    DivDiv(u);
    var q1 := u / 0x100;
    var q2 := q1 / 0x100;
    var q3 := q2 / 0x100;
    assert u == q1 * 0x100 + u % 0x100;
    assert q1 == q2 * 0x100 + q1 % 0x100;
    assert q2 == q3 * 0x100 + q2 % 0x100;
  }

  /** Reading the four bytes most significant first gives back the id's low 32 bits. */
  lemma EncodeIdRoundTrip(id: int)
    ensures DecodeBigEndian(EncodeId(id)) == ToUnsigned32(id)
  {
    EncodeIdIsBigEndian(id);
    var u := ToUnsigned32(id);
    var b := BigEndian(u);
    assert b[0] as nat == u / 0x100_0000 % 256 && b[1] as nat == u / 0x1_0000 % 256;
    assert b[2] as nat == u / 0x100 % 256 && b[3] as nat == u % 256;
    Recompose(u);
  }

  /** Ids that differ in their low 32 bits are written differently. */
  lemma EncodeIdInjective(a: int, b: int)
    requires ToUnsigned32(a) != ToUnsigned32(b)
    ensures EncodeId(a) != EncodeId(b)
  {
    EncodeIdRoundTrip(a);
    EncodeIdRoundTrip(b);
  }

  /**
   * Section 3.6 of the glTF 2.0 specification stores buffer data little-endian:
   * a reader takes point id 1 for 16777216, and a wrong reading happens exactly
   * when the four bytes are not a palindrome.
   */
  lemma IndexBytesReadLittleEndian(id: int)
    ensures DecodeLittleEndian(EncodeId(1)) == 0x100_0000
    ensures var b := EncodeId(id);
      DecodeLittleEndian(b) == ToUnsigned32(id) <==> b[0] == b[3] && b[1] == b[2]
  {
    var one := EncodeId(1);
    assert one == BigEndian(1) by { EncodeIdIsBigEndian(1); }
    var b := EncodeId(id);
    EncodeIdRoundTrip(id);
    PalindromeBytes(b[0] as int, b[1] as int, b[2] as int, b[3] as int);
  }

  lemma PalindromeBytes(b0: int, b1: int, b2: int, b3: int)
    requires 0 <= b0 < 256 && 0 <= b1 < 256 && 0 <= b2 < 256 && 0 <= b3 < 256
    ensures b0 + b1 * 0x100 + b2 * 0x1_0000 + b3 * 0x100_0000 == b0 * 0x100_0000 + b1 * 0x1_0000 + b2 * 0x100 + b3
      <==> b0 == b3 && b1 == b2
  {
    var d0 := b0 - b3;
    var d1 := b1 - b2;
    var diff := (b0 + b1 * 0x100 + b2 * 0x1_0000 + b3 * 0x100_0000) - (b0 * 0x100_0000 + b1 * 0x1_0000 + b2 * 0x100 + b3);
    assert diff == d1 * (0x100 - 0x1_0000) - d0 * (0x100_0000 - 1);
  }

  /** The bytes of a sequence of point ids, id after id. */
  function EncodeIds(ids: seq<int>): (b: seq<uint8>)
    ensures |b| == 4 * |ids|
  {
    if ids == [] then [] else EncodeIds(ids[..|ids| - 1]) + EncodeId(ids[|ids| - 1])
  }

  /** The bytes of the polygons' point ids, cell after cell. */
  function EncodeCells(cells: seq<seq<int>>): seq<uint8>
  {
    if cells == [] then [] else EncodeCells(cells[..|cells| - 1]) + EncodeIds(cells[|cells| - 1])
  }

  /** Number of point ids over all cells. */
  function TotalIds(cells: seq<seq<int>>): nat
  {
    if cells == [] then 0 else TotalIds(cells[..|cells| - 1]) + |cells[|cells| - 1]|
  }

  /** Four bytes per point id; id `j` of the whole id list sits at bytes 4j to 4j+3. */
  lemma {:induction false} EncodeCellsLength(cells: seq<seq<int>>)
    ensures |EncodeCells(cells)| == 4 * TotalIds(cells)
  {
    if cells != [] {
      EncodeCellsLength(cells[..|cells| - 1]);
    }
  }

  lemma {:induction false} EncodeIdsAt(ids: seq<int>, j: nat)
    requires j < |ids|
    ensures EncodeIds(ids)[4 * j..4 * j + 4] == EncodeId(ids[j])
  {
    var n := |ids| - 1;
    if j < n {
      EncodeIdsAt(ids[..n], j);
      assert EncodeIds(ids)[..4 * n] == EncodeIds(ids[..n]);
    } else {
      assert EncodeIds(ids)[4 * n..] == EncodeId(ids[n]);
    }
  }

  // ---------------------------------------------------------------------------
  // Data objects

  /** A VTK data array: its type, tuple and component counts, bytes per component, and memory. */
  datatype DataArray = DataArray(dataType: int, tuples: nat, components: nat, elementSize: nat, bytes: seq<uint8>)

  /** A data array's memory holds tuples x components x element-size bytes. */
  predicate WellSized(a: DataArray)
  {
    |a.bytes| == a.tuples * a.components * a.elementSize
  }

  type VtkArray = a: DataArray | WellSized(a)
    witness DataArray(VTK_FLOAT, 0, 3, 4, [])

  /** The number of bytes of an array: tuples x components x element size. */
  function ArraySize(a: VtkArray): (n: nat)
    ensures n == |a.bytes|
  {
    a.tuples * a.components * a.elementSize
  }

  /**
   * A polydata: its points array and its four cell arrays, each cell a list of
   * point ids; the polys array may be missing.
   */
  datatype PolyData = PolyData(points: VtkArray, verts: seq<seq<int>>, lines: seq<seq<int>>,
                               polys: Option<seq<seq<int>>>, strips: seq<seq<int>>)

  function NumberOfCells(pd: PolyData): nat
  {
    |pd.verts| + |pd.lines| + (if pd.polys.Some? then |pd.polys.value| else 0) + |pd.strips|
  }

  /** The input data object of a mapper. */
  datatype DataObject = PolyDataObject(pd: PolyData) | CompositeObject(blocks: seq<DataObject>) | OtherObject | NullObject

  /** The leaves a composite data iterator visits, depth first. */
  function Leaves(d: DataObject): seq<DataObject>
    decreases d, 1
  {
    if d.CompositeObject? then LeavesFrom(d.blocks, 0, d) else [d]
  }

  function LeavesFrom(blocks: seq<DataObject>, i: nat, owner: DataObject): seq<DataObject>
    requires owner.CompositeObject? && owner.blocks == blocks && i <= |blocks|
    decreases owner, 0, |blocks| - i
  {
    if i == |blocks| then [] else Leaves(blocks[i]) + LeavesFrom(blocks, i + 1, owner)
  }

  /** The first polydata leaf from index `k` on. */
  function FirstPolyLeaf(leaves: seq<DataObject>, k: nat): Option<PolyData>
    requires k <= |leaves|
    decreases |leaves| - k
  {
    if k == |leaves| then None
    else if leaves[k].PolyDataObject? then Some(leaves[k].pd)
    else FirstPolyLeaf(leaves, k + 1)
  }

  /** GetPolyData: the input itself if it is polydata, else the first polydata leaf of a composite, else null. */
  function PolyDataOf(d: DataObject): Option<PolyData>
  {
    if d.PolyDataObject? then Some(d.pd)
    else if d.CompositeObject? then FirstPolyLeaf(Leaves(d), 0)
    else None
  }

  lemma {:induction false} FirstPolyLeafSpec(leaves: seq<DataObject>, k: nat)
    requires k <= |leaves|
    decreases |leaves| - k
    ensures FirstPolyLeaf(leaves, k).None? <==> forall j | k <= j < |leaves| :: !leaves[j].PolyDataObject?
    ensures FirstPolyLeaf(leaves, k).Some? ==>
      exists j | k <= j < |leaves| :: leaves[j] == PolyDataObject(FirstPolyLeaf(leaves, k).value)
        && forall i | k <= i < j :: !leaves[i].PolyDataObject?
  {
    if k < |leaves| {
      FirstPolyLeafSpec(leaves, k + 1);
      if !leaves[k].PolyDataObject? && FirstPolyLeaf(leaves, k).Some? {
        var j :| k + 1 <= j < |leaves| && leaves[j] == PolyDataObject(FirstPolyLeaf(leaves, k).value)
          && forall i | k + 1 <= i < j :: !leaves[i].PolyDataObject?;
        assert forall i | k <= i < j :: !leaves[i].PolyDataObject?;
      }
    }
  }

  /**
   * GetPolyData returns polydata exactly when the input is polydata or a
   * composite with a polydata leaf, and then the input itself or the first
   * such leaf in traversal order.
   */
  lemma PolyDataOfSpec(d: DataObject)
    ensures d.PolyDataObject? ==> PolyDataOf(d) == Some(d.pd)
    ensures PolyDataOf(d).None? <==>
      !d.PolyDataObject? && (d.CompositeObject? ==> forall j | 0 <= j < |Leaves(d)| :: !Leaves(d)[j].PolyDataObject?)
    ensures d.CompositeObject? && PolyDataOf(d).Some? ==>
      exists j | 0 <= j < |Leaves(d)| :: Leaves(d)[j] == PolyDataObject(PolyDataOf(d).value)
        && forall i | 0 <= i < j :: !Leaves(d)[i].PolyDataObject?
  {
    if d.CompositeObject? {
      FirstPolyLeafSpec(Leaves(d), 0);
    }
  }

  /** The read-only search of GetPolyData. */
  method GetPolyData(input: DataObject) returns (pd: Option<PolyData>)
    ensures pd == PolyDataOf(input)
  {
    if input.PolyDataObject? {
      return Some(input.pd);
    }
    if input.CompositeObject? {
      var leaves := Leaves(input);
      for k := 0 to |leaves|
        invariant FirstPolyLeaf(leaves, 0) == FirstPolyLeaf(leaves, k)
      {
        if leaves[k].PolyDataObject? {
          return Some(leaves[k].pd);
        }
      }
    }
    return None;
  }

  // ---------------------------------------------------------------------------
  // The tinygltf model

  datatype BufferView = BufferView(name: string, buffer: nat, byteOffset: nat, byteLength: nat, target: Option<int>)
  datatype Accessor = Accessor(name: string, byteOffset: nat, bufferView: nat, componentType: int, count: nat, accessorType: int)
  /** A primitive: its mode, the accessor of the POSITION attribute, and the indices accessor. */
  datatype Primitive = Primitive(mode: int, position: nat, indices: nat)
  datatype Mesh = Mesh(primitives: seq<Primitive>)
  datatype Node = Node(mesh: nat)

  /** The arrays of a tinygltf model, with scene `k` as the list of its node indices. */
  datatype ModelState = ModelState(buffers: seq<seq<uint8>>, bufferViews: seq<BufferView>, accessors: seq<Accessor>,
                                   meshes: seq<Mesh>, nodes: seq<Node>, scenes: seq<seq<nat>>,
                                   defaultScene: int, version: string, generator: string)

  /** The buffer index after `int cellTemp = size(); size_t prev = cellTemp;`. */
  function CellPrevBufferSize(len: nat): nat
  {
    ToSigned32(len % 0x1_0000_0000) % 0x1_0000_0000_0000_0000
  }

  /** Below 2^31 bytes the round trip through `int` keeps the buffer length. */
  lemma CellPrevBufferSizeSpec(len: nat)
    ensures len < 0x8000_0000 ==> CellPrevBufferSize(len) == len
    ensures CellPrevBufferSize(0x8000_0000) == 0x1_0000_0000_0000_0000 - 0x8000_0000
  {
  }

  /** An empty buffer 0 when the model has none. */
  function WithBuffer(st: ModelState): (r: ModelState)
    ensures |r.buffers| > 0
  {
    if st.buffers == [] then st.(buffers := [[]]) else st
  }

  /** The point bytes, their buffer view and their VEC3 accessor. */
  function AppendPositions(st: ModelState, points: VtkArray, prefix: string): (r: ModelState)
    requires |st.buffers| > 0
    ensures |r.buffers| == |st.buffers| && |r.accessors| == |st.accessors| + 1 && r.scenes == st.scenes
  {
    var offset := |st.buffers[0]|;
    var views := st.bufferViews + [BufferView(prefix + "_positions_bv", 0, offset, ArraySize(points), Some(TARGET_ARRAY_BUFFER))];
    st.(buffers := st.buffers[0 := st.buffers[0] + points.bytes],
        bufferViews := views,
        accessors := st.accessors + [Accessor(prefix + "_positions_ac", offset, |views| - 1,
                                              ComponentTypeOf(points.dataType), points.tuples, TYPE_VEC3)])
  }

  /** The index bytes, their buffer view and their SCALAR UNSIGNED_INT accessor. */
  function AppendIndices(st: ModelState, polygons: seq<seq<int>>): (r: ModelState)
    requires |st.buffers| > 0
    ensures |r.buffers| == |st.buffers| && |r.accessors| == |st.accessors| + 1 && r.scenes == st.scenes
  {
    var prev := CellPrevBufferSize(|st.buffers[0]|);
    var data := st.buffers[0] + EncodeCells(polygons);
    var views := st.bufferViews + [BufferView("", 0, prev, (|data| - prev) % 0x1_0000_0000_0000_0000, None)];
    st.(buffers := st.buffers[0 := data],
        bufferViews := views,
        accessors := st.accessors + [Accessor("", prev, |views| - 1, COMPONENT_UNSIGNED_INT, |polygons|, TYPE_SCALAR)])
  }

  /** A mesh with one triangles primitive over the last two accessors, a node for it, listed in scene 0. */
  function AppendMeshNode(st: ModelState): (r: ModelState)
    requires |st.accessors| >= 2 && |st.scenes| > 0
    ensures |r.scenes| == |st.scenes|
  {
    var meshes := st.meshes + [Mesh([Primitive(MODE_TRIANGLES, |st.accessors| - 2, |st.accessors| - 1)])];
    var nodes := st.nodes + [Node(|meshes| - 1)];
    st.(meshes := meshes, nodes := nodes, scenes := st.scenes[0 := st.scenes[0] + [|nodes| - 1]])
  }

  /** The entries one actor's polydata adds, given that buffer 0 and scene 0 exist. */
  function AppendActor(st: ModelState, pd: PolyData, prefix: string): (r: ModelState)
    requires |st.buffers| > 0 && |st.scenes| > 0 && pd.polys.Some?
    ensures |r.scenes| == |st.scenes|
  {
    AppendMeshNode(AppendIndices(AppendPositions(st, pd.points, prefix), pd.polys.value))
  }

  /** Whether a mapper input makes AddActorToModel add anything. */
  predicate AddsGeometry(input: DataObject)
  {
    PolyDataOf(input).Some? && PolyDataOf(input).value.polys.Some? && NumberOfCells(PolyDataOf(input).value) > 0
  }

  /** AddActorToModel on the model state, for an actor whose mapper input is `input`. */
  function AddActor(st: ModelState, input: DataObject, prefix: string): (r: ModelState)
    requires |st.scenes| > 0
    ensures |r.scenes| == |st.scenes|
  {
    if !AddsGeometry(input) then st
    else AppendActor(WithBuffer(st), PolyDataOf(input).value, prefix)
  }

  /**
   * Without polydata, without a polys array or without cells nothing changes.
   * Otherwise exactly two buffer views, two accessors, one mesh and one node
   * are appended, the mesh's triangles primitive uses the two new accessors,
   * the node points at the new mesh, and the node joins scene 0.
   */
  lemma AddActorSpec(st: ModelState, input: DataObject, prefix: string)
    requires |st.scenes| > 0
    ensures !AddsGeometry(input) ==> AddActor(st, input, prefix) == st
    ensures AddsGeometry(input) ==>
      var r := AddActor(st, input, prefix);
      && |r.bufferViews| == |st.bufferViews| + 2 && r.bufferViews[..|st.bufferViews|] == st.bufferViews
      && |r.accessors| == |st.accessors| + 2 && r.accessors[..|st.accessors|] == st.accessors
      && r.meshes == st.meshes + [Mesh([Primitive(MODE_TRIANGLES, |st.accessors|, |st.accessors| + 1)])]
      && r.nodes == st.nodes + [Node(|st.meshes|)]
      && r.scenes == st.scenes[0 := st.scenes[0] + [|st.nodes|]]
  {
  }

  /**
   * Buffer 0, created empty when the model has none, grows by the point bytes
   * and then four bytes per polygon point id; the bytes before stay as they
   * were and no other buffer changes.
   */
  lemma AddActorBuffer(st: ModelState, input: DataObject, prefix: string)
    requires |st.scenes| > 0
    requires AddsGeometry(input)
    ensures
      var r := AddActor(st, input, prefix);
      var pd := PolyDataOf(input).value;
      var old0 := if st.buffers == [] then [] else st.buffers[0];
      && |r.buffers| == (if st.buffers == [] then 1 else |st.buffers|)
      && (st.buffers != [] ==> r.buffers[1..] == st.buffers[1..])
      && r.buffers[0] == old0 + pd.points.bytes + EncodeCells(pd.polys.value)
      && |r.buffers[0]| == |old0| + ArraySize(pd.points) + 4 * TotalIds(pd.polys.value)
  {
    EncodeCellsLength(PolyDataOf(input).value.polys.value);
  }

  /**
   * The position view covers the point bytes just appended to buffer 0, and
   * its accessor counts the points as VEC3 of their component type; the
   * accessor names the view pushed just before it.
   */
  lemma AddActorPositionView(st: ModelState, input: DataObject, prefix: string)
    requires |st.scenes| > 0
    requires AddsGeometry(input)
    ensures
      var r := AddActor(st, input, prefix);
      var pd := PolyDataOf(input).value;
      var bv := r.bufferViews[|st.bufferViews|];
      var ac := r.accessors[|st.accessors|];
      && bv.buffer == 0 && bv.byteOffset == (if st.buffers == [] then 0 else |st.buffers[0]|)
      && bv.byteLength == ArraySize(pd.points) && bv.target == Some(TARGET_ARRAY_BUFFER)
      && r.buffers[0][bv.byteOffset..bv.byteOffset + bv.byteLength] == pd.points.bytes
      && ac.bufferView == |st.bufferViews| && ac.count == pd.points.tuples && ac.accessorType == TYPE_VEC3
      && ac.componentType == ComponentTypeOf(pd.points.dataType)
  {
    var pd := PolyDataOf(input).value;
    var s0 := WithBuffer(st);
    var p := AppendPositions(s0, pd.points, prefix);
    var i := AppendIndices(p, pd.polys.value);
    assert i.bufferViews[|st.bufferViews|] == p.bufferViews[|st.bufferViews|];
    assert i.accessors[|st.accessors|] == p.accessors[|st.accessors|];
    var data := s0.buffers[0] + pd.points.bytes + EncodeCells(pd.polys.value);
    assert i.buffers[0] == data;
    assert data[|s0.buffers[0]|..|s0.buffers[0]| + |pd.points.bytes|] == pd.points.bytes;
  }

  /**
   * The index view starts at the buffer length seen through an `int`, which
   * is where the index bytes start while the buffer is below 2^31 bytes; it
   * then covers four bytes per point id. Its accessor is UNSIGNED_INT SCALAR,
   * names the view pushed just before it, and counts polygons, not point ids.
   */
  lemma AddActorIndexView(st: ModelState, input: DataObject, prefix: string)
    requires |st.scenes| > 0
    requires AddsGeometry(input)
    ensures
      var r := AddActor(st, input, prefix);
      var pd := PolyDataOf(input).value;
      var start := (if st.buffers == [] then 0 else |st.buffers[0]|) + ArraySize(pd.points);
      var view := r.bufferViews[|st.bufferViews| + 1];
      var ac := r.accessors[|st.accessors| + 1];
      && view.buffer == 0 && view.byteOffset == CellPrevBufferSize(start) && view.target.None?
      && (start < 0x8000_0000 ==> view.byteOffset == start)
      && (start < 0x8000_0000 && 4 * TotalIds(pd.polys.value) < 0x1_0000_0000_0000_0000 ==>
            && view.byteLength == 4 * TotalIds(pd.polys.value)
            && r.buffers[0][view.byteOffset..view.byteOffset + view.byteLength] == EncodeCells(pd.polys.value))
      && ac.bufferView == |st.bufferViews| + 1 && ac.componentType == COMPONENT_UNSIGNED_INT
      && ac.accessorType == TYPE_SCALAR && ac.count == |pd.polys.value|
  {
    var pd := PolyDataOf(input).value;
    var s0 := WithBuffer(st);
    var p := AppendPositions(s0, pd.points, prefix);
    var i := AppendIndices(p, pd.polys.value);
    var start := |p.buffers[0]|;
    var cells := EncodeCells(pd.polys.value);
    assert AddActor(st, input, prefix) == AppendMeshNode(i);
    assert i.buffers[0] == p.buffers[0] + cells;
    assert i.bufferViews[|st.bufferViews| + 1] == BufferView("", 0, CellPrevBufferSize(start), (start + |cells| - CellPrevBufferSize(start)) % 0x1_0000_0000_0000_0000, None);
    EncodeCellsLength(pd.polys.value);
    CellPrevBufferSizeSpec(start);
    if start < 0x8000_0000 && |cells| < 0x1_0000_0000_0000_0000 {
      assert (start + |cells| - start) % 0x1_0000_0000_0000_0000 == |cells|;
      assert i.buffers[0][start..start + |cells|] == cells;
    }
  }

  /**
   * Each accessor's byteOffset repeats its view's byteOffset, while section
   * 3.6.2 of the glTF 2.0 specification takes it relative to the view, so a
   * reader starts at twice the view's offset: past the data whenever the view
   * does not start at byte 0, as the position view of every actor after the
   * first.
   */
  lemma AccessorOffsetCountedTwice(st: ModelState, input: DataObject, prefix: string)
    requires |st.scenes| > 0
    requires AddsGeometry(input)
    ensures
      var r := AddActor(st, input, prefix);
      && r.accessors[|st.accessors|].byteOffset == r.bufferViews[|st.bufferViews|].byteOffset
      && r.accessors[|st.accessors| + 1].byteOffset == r.bufferViews[|st.bufferViews| + 1].byteOffset
      && (st.buffers != [] && st.buffers[0] != [] ==> r.accessors[|st.accessors|].byteOffset > 0)
  {
    var pd := PolyDataOf(input).value;
    var p := AppendPositions(WithBuffer(st), pd.points, prefix);
    var i := AppendIndices(p, pd.polys.value);
    assert i.bufferViews[|st.bufferViews|] == p.bufferViews[|st.bufferViews|];
    assert i.accessors[|st.accessors|] == p.accessors[|st.accessors|];
  }

  /**
   * The model's references stay in range: every view is in buffer 0, which
   * is the only buffer; accessors name existing views, primitives existing
   * accessors, nodes existing meshes and scenes existing nodes.
   */
  predicate ValidModel(st: ModelState)
  {
    && |st.buffers| <= 1 && |st.scenes| > 0
    && (forall k | 0 <= k < |st.bufferViews| :: st.bufferViews[k].buffer == 0 && |st.buffers| == 1)
    && (forall k | 0 <= k < |st.accessors| :: st.accessors[k].bufferView < |st.bufferViews|)
    && (forall k, p | 0 <= k < |st.meshes| && p in st.meshes[k].primitives ::
          p.position < |st.accessors| && p.indices < |st.accessors|)
    && (forall k | 0 <= k < |st.nodes| :: st.nodes[k].mesh < |st.meshes|)
    && (forall s, n | s in st.scenes && n in s :: n < |st.nodes|)
  }

  lemma AddActorKeepsValid(st: ModelState, input: DataObject, prefix: string)
    requires ValidModel(st)
    ensures ValidModel(AddActor(st, input, prefix))
  {
    if AddsGeometry(input) {
      AddActorSpec(st, input, prefix);
      var r := AddActor(st, input, prefix);
      forall s, n | s in r.scenes && n in s ensures n < |r.nodes| {
        var i :| 0 <= i < |r.scenes| && r.scenes[i] == s;
        if i > 0 {
          assert s == st.scenes[i];
        } else {
          assert st.scenes[0] in st.scenes;
        }
      }
    }
  }

  /** The model the class starts from: tinygltf's defaults. */
  const EmptyModel: ModelState := ModelState([], [], [], [], [], [], -1, "", "")

  class GltfModel {
    var buffers: seq<seq<uint8>>
    var bufferViews: seq<BufferView>
    var accessors: seq<Accessor>
    var meshes: seq<Mesh>
    var nodes: seq<Node>
    var scenes: seq<seq<nat>>
    var defaultScene: int
    var version: string
    var generator: string

    constructor ()
      ensures State() == EmptyModel
    {
      buffers := [];
      bufferViews := [];
      accessors := [];
      meshes := [];
      nodes := [];
      scenes := [];
      defaultScene := -1;
      version := "";
      generator := "";
    }

    function State(): ModelState
      reads this
    {
      ModelState(buffers, bufferViews, accessors, meshes, nodes, scenes, defaultScene, version, generator)
    }

    /**
     * AddVtkArrayToBuffer: grows buffer 0 by the array's size and copies the
     * array's bytes there. `bufferIndex` is not used: the data always goes to buffer 0.
     */
    method AddVtkArrayToBuffer(bufferIndex: int, a: VtkArray) returns (offset: nat, size: nat)
      requires |buffers| > 0
      modifies this`buffers
      ensures offset == |old(buffers[0])|
      ensures size == ArraySize(a)
      ensures |buffers| == |old(buffers)| && buffers[1..] == old(buffers[1..])
      ensures buffers[0] == old(buffers[0]) + a.bytes
      ensures |buffers[0]| == offset + size && buffers[0][..offset] == old(buffers[0])
    {
      offset := |buffers[0]|;
      size := ArraySize(a);
      var data := buffers[0] + seq(size, _ => 0 as uint8);
      for k := 0 to size
        invariant |data| == offset + size
        invariant data[..offset] == buffers[0]
        invariant forall j | 0 <= j < k :: data[offset + j] == a.bytes[j]
      {
        data := data[offset + k := a.bytes[k]];
      }
      assert data == buffers[0] + a.bytes by {
        assert data[offset..] == a.bytes;
        assert data == data[..offset] + data[offset..];
      }
      buffers := buffers[0 := data];
    }

    /** The loop over the polygons: the four bytes of each point id, cell by cell. */
    static method EncodePolygons(polygons: seq<seq<int>>) returns (cellDataArray: seq<uint8>)
      ensures cellDataArray == EncodeCells(polygons)
    {
      cellDataArray := [];
      for c := 0 to |polygons|
        invariant cellDataArray == EncodeCells(polygons[..c])
      {
        var indx := polygons[c];
        ghost var before := cellDataArray;
        for j := 0 to |indx|
          invariant cellDataArray == before + EncodeIds(indx[..j])
        {
          var value := ToUnsigned32(indx[j]);
          var intValue := ToSigned32(value);
          cellDataArray := cellDataArray + [LowByte(intValue / 0x100_0000)];
          cellDataArray := cellDataArray + [LowByte(intValue / 0x1_0000)];
          cellDataArray := cellDataArray + [LowByte(intValue / 0x100)];
          cellDataArray := cellDataArray + [LowByte(intValue)];
          assert indx[..j + 1][..j] == indx[..j];
        }
        assert indx[..|indx|] == indx;
        assert polygons[..c + 1][..c] == polygons[..c];
      }
      assert polygons[..|polygons|] == polygons;
    }

    /** The first part of AddActorToModel: the points go to buffer 0 with a view and a VEC3 accessor. */
    method AddPositions(points: VtkArray, namePrefix: string) returns (position: nat)
      requires |buffers| > 0
      modifies this
      ensures State() == AppendPositions(old(State()), points, namePrefix)
      ensures position == |accessors| - 1
    {
      var offset, size := AddVtkArrayToBuffer(0, points);
      var bv := BufferView(namePrefix + "_positions_bv", 0, offset, size, Some(TARGET_ARRAY_BUFFER));
      bufferViews := bufferViews + [bv];
      var ac := Accessor(namePrefix + "_positions_ac", bv.byteOffset, |bufferViews| - 1,
                         ComponentTypeOf(points.dataType), points.tuples, TYPE_VEC3);
      accessors := accessors + [ac];
      position := |accessors| - 1;
    }

    /** The second part: the polygons' point ids go to buffer 0 with a view and a SCALAR accessor. */
    method AddIndices(polygons: seq<seq<int>>) returns (indices: nat)
      requires |buffers| > 0
      modifies this
      ensures State() == AppendIndices(old(State()), polygons)
      ensures indices == |accessors| - 1
    {
      var cellTemp := ToSigned32(|buffers[0]| % 0x1_0000_0000);
      var cellPrevBufferSize := cellTemp % 0x1_0000_0000_0000_0000;
      var cellDataArray := EncodePolygons(polygons);
      buffers := buffers[0 := buffers[0] + cellDataArray];
      var cellNewBufferSize := |buffers[0]|;
      var indexView := BufferView("", 0, cellPrevBufferSize, (cellNewBufferSize - cellPrevBufferSize) % 0x1_0000_0000_0000_0000, None);
      bufferViews := bufferViews + [indexView];
      var indexAccessor := Accessor("", indexView.byteOffset, |bufferViews| - 1, COMPONENT_UNSIGNED_INT, |polygons|, TYPE_SCALAR);
      accessors := accessors + [indexAccessor];
      indices := |accessors| - 1;
    }

    /** The last part: a triangles mesh over the two accessors, a node for it, listed in scene 0. */
    method AddMeshNode(position: nat, indices: nat)
      requires |scenes| > 0 && |accessors| >= 2
      requires position == |accessors| - 2 && indices == |accessors| - 1
      modifies this
      ensures State() == AppendMeshNode(old(State()))
    {
      var aPrimitive := Primitive(MODE_TRIANGLES, position, indices);
      meshes := meshes + [Mesh([aPrimitive])];
      nodes := nodes + [Node(|meshes| - 1)];
      scenes := scenes[0 := scenes[0] + [|nodes| - 1]];
    }

    /** AddActorToModel for an actor whose mapper input is `input`. */
    method AddActorToModel(input: DataObject, namePrefix: string)
      requires |scenes| > 0
      modifies this
      ensures State() == AddActor(old(State()), input, namePrefix)
    {
      var polyData := GetPolyData(input);
      if polyData.None? || polyData.value.polys.None? || NumberOfCells(polyData.value) == 0 {
        assert !AddsGeometry(input);
        return;
      }
      var pd := polyData.value;
      if |buffers| == 0 {
        buffers := buffers + [[]];
      }
      ghost var withBuffer := State();
      assert withBuffer == WithBuffer(old(State()));
      var position := AddPositions(pd.points, namePrefix);
      var indices := AddIndices(pd.polys.value);
      ghost var indexed := State();
      assert indexed == AppendIndices(AppendPositions(withBuffer, pd.points, namePrefix), pd.polys.value);
      AddMeshNode(position, indices);
    }
  }

  // ---------------------------------------------------------------------------
  // WriteData

  /** A mapper: whether it has an input algorithm, and its input data object. */
  datatype Mapper = Mapper(hasInputAlgorithm: bool, input: DataObject)
  /** The last node of an assembly path of an actor: a part with its visibility and mapper. */
  datatype Part = Part(visible: bool, mapper: Option<Mapper>)
  /** An actor, by the parts its assembly paths end in. */
  datatype Actor = Actor(parts: seq<Part>)
  /** A view prop with its visibility and the actors it yields. */
  datatype Prop = Prop(visible: bool, actors: seq<Actor>)
  datatype Renderer = Renderer(props: seq<Prop>)

  /** The number of actors of the renderer, visible or not. */
  function ActorCount(props: seq<Prop>): nat
  {
    if props == [] then 0 else ActorCount(props[..|props| - 1]) + |props[|props| - 1].actors|
  }

  /** A part is exported when it is visible, has a mapper with an input algorithm, and its input has polys and cells. */
  predicate Contributes(part: Part)
  {
    part.visible && part.mapper.Some? && part.mapper.value.hasInputAlgorithm && AddsGeometry(part.mapper.value.input)
  }

  /** The mapper inputs of the exported parts, in traversal order. */
  function PartInputs(parts: seq<Part>): seq<DataObject>
  {
    if parts == [] then []
    else
      var last := parts[|parts| - 1];
      PartInputs(parts[..|parts| - 1]) + (if Contributes(last) then [last.mapper.value.input] else [])
  }

  function ActorInputs(actors: seq<Actor>): seq<DataObject>
  {
    if actors == [] then [] else ActorInputs(actors[..|actors| - 1]) + PartInputs(actors[|actors| - 1].parts)
  }

  /** Hidden props are skipped whole. */
  function PropInputs(props: seq<Prop>): seq<DataObject>
  {
    if props == [] then []
    else
      var last := props[|props| - 1];
      PropInputs(props[..|props| - 1]) + (if last.visible then ActorInputs(last.actors) else [])
  }

  /** AddActorToModel for each input, in order. */
  function AddAll(st: ModelState, inputs: seq<DataObject>): ModelState
    requires |st.scenes| > 0
    ensures |AddAll(st, inputs).scenes| == |st.scenes|
  {
    if inputs == [] then st
    else
      AddActor(AddAll(st, inputs[..|inputs| - 1]), inputs[|inputs| - 1], "actor")
  }

  /** The model WriteData starts from: asset version and generator, one empty default scene. */
  const InitialModel: ModelState := ModelState([], [], [], [], [], [[]], 0, "2.0", "vtkGLTFExporter")

  /** What WriteData hands to the writer: nothing when the renderer has no actors. */
  function ExportScene(ren: Renderer): Option<ModelState>
  {
    if ActorCount(ren.props) < 1 then None else Some(AddAll(InitialModel, PropInputs(ren.props)))
  }

  /** Adding actors keeps every reference of the model in range. */
  lemma {:induction false} AddAllKeepsValid(st: ModelState, inputs: seq<DataObject>)
    requires ValidModel(st)
    ensures ValidModel(AddAll(st, inputs))
  {
    if inputs != [] {
      AddAllKeepsValid(st, inputs[..|inputs| - 1]);
      AddActorKeepsValid(AddAll(st, inputs[..|inputs| - 1]), inputs[|inputs| - 1], "actor");
    }
  }

  /**
   * Two views and two accessors per exported part, and one buffer once
   * anything is exported.
   */
  lemma {:induction false} AddAllCounts(inputs: seq<DataObject>)
    requires forall k | 0 <= k < |inputs| :: AddsGeometry(inputs[k])
    ensures var r := AddAll(InitialModel, inputs);
      && |r.bufferViews| == 2 * |inputs| && |r.accessors| == 2 * |inputs|
      && |r.buffers| == (if inputs == [] then 0 else 1)
  {
    if inputs != [] {
      var n := |inputs| - 1;
      AddAllCounts(inputs[..n]);
      var prev := AddAll(InitialModel, inputs[..n]);
      AddActorSpec(prev, inputs[n], "actor");
      AddActorBuffer(prev, inputs[n], "actor");
    }
  }

  /**
   * One mesh and one node per exported part, in traversal order: node `k`
   * shows mesh `k`, and scene 0 lists the nodes in that order.
   */
  lemma {:induction false} AddAllNodes(inputs: seq<DataObject>)
    requires forall k | 0 <= k < |inputs| :: AddsGeometry(inputs[k])
    ensures var r := AddAll(InitialModel, inputs);
      && |r.meshes| == |inputs| && |r.nodes| == |inputs|
      && (forall k | 0 <= k < |inputs| :: r.nodes[k] == Node(k))
      && r.scenes == [seq(|inputs|, k => k)]
  {
    if inputs != [] {
      var n := |inputs| - 1;
      AddAllNodes(inputs[..n]);
      AddActorSpec(AddAll(InitialModel, inputs[..n]), inputs[n], "actor");
      assert seq(|inputs|, k => k) == seq(n, k => k) + [n];
    } else {
      assert seq(0, k => k) == [];
    }
  }

  lemma {:induction false} PartInputsAdd(parts: seq<Part>)
    ensures forall k | 0 <= k < |PartInputs(parts)| :: AddsGeometry(PartInputs(parts)[k])
  {
    if parts != [] {
      PartInputsAdd(parts[..|parts| - 1]);
    }
  }

  lemma {:induction false} ActorInputsAdd(actors: seq<Actor>)
    ensures forall k | 0 <= k < |ActorInputs(actors)| :: AddsGeometry(ActorInputs(actors)[k])
  {
    if actors != [] {
      ActorInputsAdd(actors[..|actors| - 1]);
      PartInputsAdd(actors[|actors| - 1].parts);
    }
  }

  lemma {:induction false} PropInputsAdd(props: seq<Prop>)
    ensures forall k | 0 <= k < |PropInputs(props)| :: AddsGeometry(PropInputs(props)[k])
  {
    if props != [] {
      PropInputsAdd(props[..|props| - 1]);
      ActorInputsAdd(props[|props| - 1].actors);
    }
  }

  /**
   * WriteData writes nothing for a renderer without actors; otherwise one mesh
   * and node per exported part, listed in scene 0, which is the default scene.
   */
  lemma ExportSceneSpec(ren: Renderer)
    ensures ExportScene(ren).None? <==> ActorCount(ren.props) == 0
    ensures ExportScene(ren).Some? ==>
      var r := ExportScene(ren).value;
      var n := |PropInputs(ren.props)|;
      && ValidModel(r) && r.defaultScene == 0 && r.version == "2.0" && r.generator == "vtkGLTFExporter"
      && |r.meshes| == n && |r.nodes| == n && r.scenes == [seq(n, k => k)]
  {
    PropInputsAdd(ren.props);
    AddAllNodes(PropInputs(ren.props));
    AddAllKeepsValid(InitialModel, PropInputs(ren.props));
    if ExportScene(ren).Some? {
      AddAllPreservesAsset(InitialModel, PropInputs(ren.props));
    }
  }

  lemma {:induction false} AddAllPreservesAsset(st: ModelState, inputs: seq<DataObject>)
    requires |st.scenes| > 0
    ensures AddAll(st, inputs).defaultScene == st.defaultScene
    ensures AddAll(st, inputs).version == st.version && AddAll(st, inputs).generator == st.generator
  {
    if inputs != [] {
      AddAllPreservesAsset(st, inputs[..|inputs| - 1]);
    }
  }

  /**
   * The exporter test's four cases for a renderer with one actor: visible
   * with a mapper whose input has polygons gives one mesh; hidden, without a
   * mapper, or with a mapper without input still writes a file, with no mesh.
   */
  lemma SingleActorCases(pd: PolyData)
    requires pd.polys.Some? && NumberOfCells(pd) > 0
    ensures var m := Mapper(true, PolyDataObject(pd));
      && |ExportScene(Renderer([Prop(true, [Actor([Part(true, Some(m))])])])).value.meshes| == 1
      && ExportScene(Renderer([Prop(false, [Actor([Part(false, Some(m))])])])) == Some(InitialModel)
      && ExportScene(Renderer([Prop(true, [Actor([Part(true, None)])])])) == Some(InitialModel)
      && ExportScene(Renderer([Prop(true, [Actor([Part(true, Some(Mapper(false, NullObject)))])])])) == Some(InitialModel)
  {
    var m := Mapper(true, PolyDataObject(pd));
    var visible := Renderer([Prop(true, [Actor([Part(true, Some(m))])])]);
    assert PartInputs([Part(true, Some(m))]) == [PolyDataObject(pd)];
    assert ActorInputs([Actor([Part(true, Some(m))])]) == [PolyDataObject(pd)];
    assert PropInputs(visible.props) == [PolyDataObject(pd)];
    ExportSceneSpec(visible);
    var noMapper := [Part(true, None)];
    assert PartInputs(noMapper) == [];
    var noInput := [Part(true, Some(Mapper(false, NullObject)))];
    assert PartInputs(noInput) == [];
  }

  /** Adding the inputs of two lists is adding those of the first, then those of the second. */
  lemma {:induction false} AddAllAppend(st: ModelState, front: seq<DataObject>, back: seq<DataObject>)
    requires |st.scenes| > 0
    ensures AddAll(st, front + back) == AddAll(AddAll(st, front), back)
  {
    if back != [] {
      var n := |back| - 1;
      assert (front + back)[..|front + back| - 1] == front + back[..n];
      AddAllAppend(st, front, back[..n]);
    } else {
      assert front + back == front;
    }
  }

  lemma AddAllSnoc(st: ModelState, front: seq<DataObject>, input: DataObject)
    requires |st.scenes| > 0
    ensures AddAll(st, front + [input]) == AddActor(AddAll(st, front), input, "actor")
  {
    assert (front + [input])[..|front|] == front;
  }

  /** The loop over the assembly paths of one actor. */
  method AddActorParts(model: GltfModel, parts: seq<Part>)
    requires |model.scenes| > 0
    modifies model
    ensures model.State() == AddAll(old(model.State()), PartInputs(parts))
  {
    ghost var start := model.State();
    for k := 0 to |parts|
      invariant |model.scenes| > 0
      invariant model.State() == AddAll(start, PartInputs(parts[..k]))
    {
      var aPart := parts[k];
      assert parts[..k + 1][..k] == parts[..k];
      assert PartInputs(parts[..k + 1])
        == PartInputs(parts[..k]) + (if Contributes(aPart) then [aPart.mapper.value.input] else []);
      if aPart.visible && aPart.mapper.Some? && aPart.mapper.value.hasInputAlgorithm {
        var pd := GetPolyData(aPart.mapper.value.input);
        if pd.Some? && pd.value.polys.Some? && NumberOfCells(pd.value) > 0 {
          model.AddActorToModel(aPart.mapper.value.input, "actor");
          AddAllSnoc(start, PartInputs(parts[..k]), aPart.mapper.value.input);
          assert model.State() == AddAll(start, PartInputs(parts[..k]) + [aPart.mapper.value.input]);
        } else {
          assert PartInputs(parts[..k + 1]) == PartInputs(parts[..k]);
        }
      } else {
        assert PartInputs(parts[..k + 1]) == PartInputs(parts[..k]);
      }
    }
    assert parts[..|parts|] == parts;
  }

  /** The loop over the actors of one visible prop. */
  method AddPropActors(model: GltfModel, actors: seq<Actor>)
    requires |model.scenes| > 0
    modifies model
    ensures model.State() == AddAll(old(model.State()), ActorInputs(actors))
  {
    ghost var start := model.State();
    for a := 0 to |actors|
      invariant |model.scenes| > 0
      invariant model.State() == AddAll(start, ActorInputs(actors[..a]))
    {
      assert actors[..a + 1][..a] == actors[..a];
      AddActorParts(model, actors[a].parts);
      AddAllAppend(start, ActorInputs(actors[..a]), PartInputs(actors[a].parts));
    }
    assert actors[..|actors|] == actors;
  }

  /** WriteData on the active renderer: the model it hands to the writer, if any. */
  method WriteData(ren: Renderer) returns (written: Option<ModelState>)
    ensures written == ExportScene(ren)
  {
    var actorCount := 0;
    for p := 0 to |ren.props|
      invariant actorCount == ActorCount(ren.props[..p])
    {
      actorCount := actorCount + |ren.props[p].actors|;
      assert ren.props[..p + 1][..p] == ren.props[..p];
    }
    assert ren.props[..|ren.props|] == ren.props;
    if actorCount < 1 {
      return None;
    }
    var model := new GltfModel();
    model.version := "2.0";
    model.generator := "vtkGLTFExporter";
    model.scenes := model.scenes + [[]];
    model.defaultScene := 0;
    for p := 0 to |ren.props|
      invariant |model.scenes| > 0
      invariant model.State() == AddAll(InitialModel, PropInputs(ren.props[..p]))
    {
      var aProp := ren.props[p];
      assert ren.props[..p + 1][..p] == ren.props[..p];
      assert PropInputs(ren.props[..p + 1])
        == PropInputs(ren.props[..p]) + (if aProp.visible then ActorInputs(aProp.actors) else []);
      if aProp.visible {
        AddPropActors(model, aProp.actors);
        AddAllAppend(InitialModel, PropInputs(ren.props[..p]), ActorInputs(aProp.actors));
      } else {
        assert PropInputs(ren.props[..p]) + [] == PropInputs(ren.props[..p]);
      }
    }
    assert ren.props[..|ren.props|] == ren.props;
    return Some(model.State());
  }
}
