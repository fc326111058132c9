/**
  The per-vertex record of MeshDataDeformer (the `VertexData` struct) and
  the vertex buffer layout the deformer declares for it.
 */
module Vertex {

  /** A 32-bit float, kept as its bit pattern. The model never computes with
      floats: it only moves them, and a struct copy moves the bits. */
  datatype Float = F32(bits: bv32)

  datatype Vec2 = Vec2(x: Float, y: Float)
  datatype Vec3 = Vec3(x: Float, y: Float, z: Float)
  datatype Vec4 = Vec4(x: Float, y: Float, z: Float, w: Float)

  /** `VertexData`: declared with sequential layout, so its fields sit in
      this order, back to back. */
  datatype VertexData = VertexData(position: Vec3, normal: Vec3, tangent: Vec4, uv: Vec2, uv1: Vec2)

  /** Number of float components in one `VertexData`. */
  const VertexFloats: nat := 14

  /** The struct viewed as the flat run of floats the vertex buffer holds. */
  function Flatten(v: VertexData): (fs: seq<Float>)
    ensures |fs| == VertexFloats
  {
    [v.position.x, v.position.y, v.position.z,
     v.normal.x, v.normal.y, v.normal.z,
     v.tangent.x, v.tangent.y, v.tangent.z, v.tangent.w,
     v.uv.x, v.uv.y,
     v.uv1.x, v.uv1.y]
  }

  /** Reads one `VertexData` back out of a run of floats. */
  function Unflatten(fs: seq<Float>): (v: VertexData)
    requires |fs| == VertexFloats
  {
    VertexData(Vec3(fs[0], fs[1], fs[2]),
               Vec3(fs[3], fs[4], fs[5]),
               Vec4(fs[6], fs[7], fs[8], fs[9]),
               Vec2(fs[10], fs[11]),
               Vec2(fs[12], fs[13]))
  }

  /** Reinterpreting the buffer is lossless in both directions. */
  lemma FlattenRoundTrip(v: VertexData, fs: seq<Float>)
    requires |fs| == VertexFloats
    ensures Unflatten(Flatten(v)) == v
    ensures Flatten(Unflatten(fs)) == fs
  {
    assert Flatten(Unflatten(fs)) == fs by {
      forall k | 0 <= k < VertexFloats
        ensures Flatten(Unflatten(fs))[k] == fs[k]
      {
      }
    }
  }

  datatype VertexAttribute = Position | Normal | Tangent | TexCoord0 | TexCoord1

  /** Unity's per-attribute storage formats. */
  datatype VertexAttributeFormat =
    | Float32 | Float16
    | UNorm8 | SNorm8 | UNorm16 | SNorm16
    | UInt8 | SInt8 | UInt16 | SInt16 | UInt32 | SInt32

  datatype VertexAttributeDescriptor =
    VertexAttributeDescriptor(attribute: VertexAttribute, format: VertexAttributeFormat, dimension: nat)

  /** The storage format a mesh reports for each of the five attributes. */
  datatype AttributeFormats = AttributeFormats(
    position: VertexAttributeFormat,
    normal: VertexAttributeFormat,
    tangent: VertexAttributeFormat,
    texCoord0: VertexAttributeFormat,
    texCoord1: VertexAttributeFormat)

  /** The components of one attribute of a vertex, in field order. */
  function Components(v: VertexData, a: VertexAttribute): (fs: seq<Float>)
  {
    match a
    case Position => [v.position.x, v.position.y, v.position.z]
    case Normal => [v.normal.x, v.normal.y, v.normal.z]
    case Tangent => [v.tangent.x, v.tangent.y, v.tangent.z, v.tangent.w]
    case TexCoord0 => [v.uv.x, v.uv.y]
    case TexCoord1 => [v.uv1.x, v.uv1.y]
  }

  /** A layout with one descriptor per `VertexData` field, in field order,
      each as wide as that field. */
  predicate IsVertexDataLayout(layout: seq<VertexAttributeDescriptor>)
  {
    && |layout| == 5
    && layout[0].attribute == Position
    && layout[1].attribute == Normal
    && layout[2].attribute == Tangent
    && layout[3].attribute == TexCoord0
    && layout[4].attribute == TexCoord1
    && layout[0].dimension == 3
    && layout[1].dimension == 3
    && layout[2].dimension == 4
    && layout[3].dimension == 2
    && layout[4].dimension == 2
  }

  /** The formats a vertex-data layout records, one per attribute. */
  function FormatsOf(layout: seq<VertexAttributeDescriptor>): (formats: AttributeFormats)
    requires IsVertexDataLayout(layout)
  {
    AttributeFormats(layout[0].format, layout[1].format, layout[2].format, layout[3].format, layout[4].format)
  }

  /** The layout the deformer builds from the mesh's attribute formats:
      five attributes in struct order with widths 3, 3, 4, 2, 2. */
  function Layout(formats: AttributeFormats): (layout: seq<VertexAttributeDescriptor>)
    ensures IsVertexDataLayout(layout)
    ensures FormatsOf(layout) == formats
  {
    [VertexAttributeDescriptor(Position, formats.position, 3),
     VertexAttributeDescriptor(Normal, formats.normal, 3),
     VertexAttributeDescriptor(Tangent, formats.tangent, 4),
     VertexAttributeDescriptor(TexCoord0, formats.texCoord0, 2),
     VertexAttributeDescriptor(TexCoord1, formats.texCoord1, 2)]
  }

  /** Offset, in floats, of descriptor `k` within one vertex. */
  function Offset(layout: seq<VertexAttributeDescriptor>, k: nat): (offset: nat)
    requires k <= |layout|
  {
    if k == 0 then 0 else Offset(layout, k - 1) + layout[k - 1].dimension
  }

  /** The layout and the struct agree: every attribute the layout declares
      sits at its offset in the flat vertex with its declared width, and the
      widths add up to the whole struct. */
  lemma LayoutMatchesVertexData(formats: AttributeFormats, v: VertexData)
    ensures Offset(Layout(formats), 5) == VertexFloats
    ensures forall k :: 0 <= k < 5 ==>
      && Offset(Layout(formats), k) + Layout(formats)[k].dimension <= VertexFloats
      && Flatten(v)[Offset(Layout(formats), k) .. Offset(Layout(formats), k) + Layout(formats)[k].dimension]
         == Components(v, Layout(formats)[k].attribute)
  {
    var layout := Layout(formats);
    assert Offset(layout, 1) == 3;
    assert Offset(layout, 2) == 6;
    assert Offset(layout, 3) == 10;
    assert Offset(layout, 4) == 12;
    assert Offset(layout, 5) == 14;
    var fs := Flatten(v);
    assert fs[0..3] == Components(v, Position);
    assert fs[3..6] == Components(v, Normal);
    assert fs[6..10] == Components(v, Tangent);
    assert fs[10..12] == Components(v, TexCoord0);
    assert fs[12..14] == Components(v, TexCoord1);
  }
}
