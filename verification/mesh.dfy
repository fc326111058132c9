/**
  The parts of Unity's mesh data the deformer touches: the live mesh, the
  writable output mesh it fills, the submesh descriptor, the index copy and
  the normal recalculation that follows a publish.
 */
module MeshData {
  import opened Wrappers
  import opened Vertex

  datatype IndexFormat = UInt16 | UInt32

  datatype MeshTopology = Triangles | Quads | Lines | LineStrip | Points

  /** A submesh: the index range it draws, its topology and the vertex range
      those indices refer to. */
  datatype SubMeshDescriptor = SubMeshDescriptor(
    indexStart: nat,
    indexCount: nat,
    topology: MeshTopology,
    firstVertex: nat,
    vertexCount: nat)

  /** A mesh's geometry, as a read-only snapshot sees it and as a publish
      replaces it. Index values are kept whole whatever the index format. */
  datatype Mesh = Mesh(
    vertices: seq<VertexData>,
    formats: AttributeFormats,
    indexFormat: IndexFormat,
    indices: seq<nat>,
    subMeshes: seq<SubMeshDescriptor>)

  /** A writable mesh obtained from `AllocateWritableMeshData`. */
  datatype OutputMesh = OutputMesh(
    vertices: seq<VertexData>,
    layout: seq<VertexAttributeDescriptor>,
    indexFormat: IndexFormat,
    indices: seq<nat>,
    subMeshes: seq<SubMeshDescriptor>)

  datatype Fault =
    | NoSubMesh           // GetSubMesh(0) on a mesh without submeshes
    | IndexCountMismatch  // NativeArray.CopyTo between arrays of different lengths

  /** A fresh writable mesh after `SetIndexBufferParams(indexCount, indexFormat)`
      and `SetVertexBufferParams(vertexCount, layout)`. Its buffer contents
      are unspecified by Unity; the model starts them at zero. */
  function Allocate(vertexCount: nat, layout: seq<VertexAttributeDescriptor>, indexCount: nat, indexFormat: IndexFormat): (out: OutputMesh)
    ensures |out.vertices| == vertexCount && |out.indices| == indexCount
    ensures out.layout == layout && out.indexFormat == indexFormat
    ensures out.subMeshes == []
  {
    var zero := F32(0);
    var blank := VertexData(Vec3(zero, zero, zero), Vec3(zero, zero, zero), Vec4(zero, zero, zero, zero), Vec2(zero, zero), Vec2(zero, zero));
    OutputMesh(seq(vertexCount, _ => blank), layout, indexFormat, seq(indexCount, _ => 0), [])
  }

  /** `NativeArray.CopyTo` with Unity's collection safety checks on:
      copies every element into a destination of the same length and
      throws otherwise. */
  function CopyTo(source: seq<nat>, destination: seq<nat>): (r: Result<seq<nat>, Fault>)
    ensures r.Success? <==> |source| == |destination|
    ensures r.Success? ==> |r.value| == |destination| && forall k :: 0 <= k < |source| ==> r.value[k] == source[k]
    ensures r.Failure? ==> r.error == IndexCountMismatch
  {
    if |source| == |destination| then Success(source) else Failure(IndexCountMismatch)
  }

  /** `ApplyAndDisposeWritableMeshData`: the output replaces the mesh's
      geometry, layout, index buffer and submeshes. */
  function Apply(out: OutputMesh): (m: Mesh)
    requires IsVertexDataLayout(out.layout)
    ensures m.vertices == out.vertices && m.indices == out.indices && m.subMeshes == out.subMeshes
    ensures m.indexFormat == out.indexFormat && Layout(m.formats) == out.layout
  {
    Mesh(out.vertices, FormatsOf(out.layout), out.indexFormat, out.indices, out.subMeshes)
  }

  /** Unity's normal recalculation, left abstract: the normal it assigns to
      vertex `i` of a mesh. */
  type NormalSolver = (Mesh, nat) -> Vec3

  /** `Mesh.RecalculateNormals`: every vertex gets the solver's normal;
      nothing else about the mesh changes. */
  function RecalculateNormals(m: Mesh, solver: NormalSolver): (r: Mesh)
    ensures |r.vertices| == |m.vertices|
    ensures forall i :: 0 <= i < |m.vertices| ==>
      && r.vertices[i].normal == solver(m, i)
      && r.vertices[i].position == m.vertices[i].position
      && r.vertices[i].tangent == m.vertices[i].tangent
      && r.vertices[i].uv == m.vertices[i].uv
      && r.vertices[i].uv1 == m.vertices[i].uv1
    ensures r.formats == m.formats && r.indexFormat == m.indexFormat
    ensures r.indices == m.indices && r.subMeshes == m.subMeshes
  {
    m.(vertices := seq(|m.vertices|, i requires 0 <= i < |m.vertices| => m.vertices[i].(normal := solver(m, i))))
  }

  /** The submesh draws the whole mesh as one list of triangles. */
  predicate CoversWholeMesh(d: SubMeshDescriptor, m: Mesh)
  {
    && d.indexStart == 0 && d.indexCount == |m.indices|
    && d.firstVertex == 0 && d.vertexCount == |m.vertices|
    && d.topology == Triangles
  }
}
