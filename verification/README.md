# MeshDataDeformer in Dafny

A model of `MeshDataDeformer`, a Unity component that displaces the height of
every vertex of a mesh each frame. In `Update` it takes a read-only snapshot
of the mesh, allocates a writable mesh with the mesh's vertex count and
submesh 0's index count, and schedules a
parallel-for job over the vertex indices; in `LateUpdate` it waits for the
job, copies the snapshot's index buffer into the writable mesh, gives it one
triangle submesh and applies it to the mesh, then recomputes normals. A
`_scheduled` flag keeps at most one job in flight.

Modules, one per concept:

- `Vertex` (`vertex.dfy`): the `VertexData` struct with opaque 32-bit float
  components, its flat 14-float view, and the vertex layout built from the
  mesh's attribute formats.
- `MeshData` (`mesh.dfy`): the mesh, the writable output mesh, submesh
  descriptors, and the Unity operations the deformer calls (`CopyTo`,
  apply, `RecalculateNormals`).
- `Deform` (`job.dfy`): `DeformMeshDataJob` and its `Execute(index)`, the
  per-vertex map it computes, and sequential and any-order runs of it.
- `Pipeline` (`pipeline.dfy`): the deformer's fields as a record, `Awake`,
  `ScheduleJob`, `CompleteJob`, the host's call sequence and the invariants
  kept over it.
- `Wrappers` (`wrappers.dfy`): `Option` and `Result`.

The displacement function `DeformerUtilities.CalculateDisplacement` is a
parameter `disp` of type `(Vec3, Float, Float, Float) -> Float`, applied as
`disp(position, time, speed, amplitude)`. Unity's normal recalculation is a
parameter `solver: (Mesh, nat) -> Vec3`. `Time.time` is an argument of each
`Update` call.

## Behaviour of the code worth knowing

- `Execute` REPLACES the position's y with the displacement
  (`MeshDataDeformer.cs:92`). It does not add the displacement to the old y.
  So a zero amplitude does not leave positions unchanged. It flattens every
  vertex to the height the displacement returns.
- The index buffer is copied when the job completes, in `UpdateMesh`
  (`MeshDataDeformer.cs:147`), not when it is scheduled.
- Nothing validates the mesh: no check for zero vertices and none for the
  index format. There is no teardown path that drains an in-flight job.
- The output index buffer is sized by submesh 0's index count
  (`MeshDataDeformer.cs:117`). The copy, however, takes the snapshot's whole
  index buffer (`MeshDataDeformer.cs:147`). With Unity's collection safety
  checks on (the Editor and development builds), `NativeArray.CopyTo`
  throws when the lengths differ, so a mesh whose submesh 0 does not span
  the whole index buffer makes every `LateUpdate` throw. The exception
  escapes before `_scheduled` is cleared. Without the safety checks the
  copy is unchecked and overruns the output index buffer. The model returns
  `Failure(IndexCountMismatch)` and leaves the state as it was.
  `Pipeline.MismatchNeverPublishes` shows that such a deformer never
  publishes again.

## Model

| member | source | states |
|---|---|---|
| Vertex.FlattenRoundTrip | MeshDataDeformer.cs:54-62 | The sequential struct and its flat run of 14 floats convert into each other without loss, in both directions |
| Vertex.Layout | MeshDataDeformer.cs:28-35 | The layout lists Position, Normal, Tangent, TexCoord0 and TexCoord1 in struct order with widths 3, 3, 4, 2 and 2. It records each attribute's format as the mesh reports it, and the formats can be read back from it |
| Vertex.LayoutMatchesVertexData | MeshDataDeformer.cs:28-35 | Each attribute the layout declares sits in the flat vertex at the sum of the earlier widths and holds exactly that struct field's components. The widths add up to the whole 14-float struct |
| MeshData.Allocate | MeshDataDeformer.cs:113-118 | A new writable mesh has the requested vertex and index counts, the given layout and index format, and no submeshes |
| MeshData.CopyTo | MeshDataDeformer.cs:145-147 | The index copy succeeds exactly when source and destination have equal length, and then yields the source element for element. Otherwise it fails with the length-mismatch fault |
| MeshData.Apply | MeshDataDeformer.cs:161-166 | Applying a writable mesh makes its vertices, index buffer, index format, submeshes and layout the mesh's own |
| MeshData.RecalculateNormals | MeshDataDeformer.cs:168 | Every vertex gets the solver's normal. Positions, tangents, both UV channels, the index buffer and the submeshes are unchanged |
| Deform.Displaced | MeshDataDeformer.cs:90-101 | The record written for an input vertex keeps its x and z, has y replaced by `disp(position, time, speed, amplitude)`, and carries over the normal, tangent, uv and uv1 unchanged |
| Deform.Execute | MeshDataDeformer.cs:87-102 | `Execute(i)` writes slot i only, with the rewritten record of input vertex i. Every other slot keeps its contents |
| Deform.ExecuteReadsOnlyItsIndex | MeshDataDeformer.cs:89-94 | What `Execute(i)` writes depends only on input vertex i and the captured parameters |
| Deform.ExecuteInOrderEffect | MeshDataDeformer.cs:128 | After any sequence of `Execute` calls, each slot holds its rewritten input vertex if its index was executed, and its old contents otherwise |
| Deform.AnyOrderGivesDeformed | MeshDataDeformer.cs:128 | Executing every index at least once, in any order and from any initial buffer, gives the input mapped through the per-vertex rewrite |
| Deform.ScheduleOrderIrrelevant | MeshDataDeformer.cs:128 | Two schedules that each cover all indices produce identical output buffers |
| Deform.RunJob | MeshDataDeformer.cs:128 | Running the job as batches of 64 consecutive indices, taken in any order that includes every batch at least once, produces the mapped output |
| Pipeline.Create | MeshDataDeformer.cs:19-42 | Start-up succeeds exactly when the mesh has a submesh 0. The deformer starts idle with no buffers allocated. Its descriptor covers submesh 0's index count and all vertices as triangles, and the invariant holds |
| Pipeline.Schedule | MeshDataDeformer.cs:105-129 | While scheduled, it changes nothing. From idle it sets the flag and allocates one writable mesh sized to the snapshot's vertex count and submesh 0's index count. The job captures the snapshot, the current speed and amplitude and the given time. No other field changes |
| Pipeline.Complete | MeshDataDeformer.cs:131-169 | While idle, it changes nothing. When scheduled it succeeds exactly when the index counts match. It then publishes the snapshot's indices, one submesh and the rewritten vertices with recomputed normals, clears the flag and drops the job |
| Pipeline.Step | MeshDataDeformer.cs:44-52 | Every host call (`Update`, `LateUpdate`, a tunable change) preserves the invariant: a job is in flight exactly when the flag is set, and allocations equal publishes plus the one in flight |
| Pipeline.Replay | MeshDataDeformer.cs:105-141 | Over any sequence of calls the invariant holds and at most one job is in flight. Writable meshes allocated never exceed publishes plus one |
| Pipeline.PublishCoversMesh | MeshDataDeformer.cs:36-41 | After a publish the mesh has exactly one submesh, and it draws indices [0, indexCount) and vertices [0, vertexCount) as triangles |
| Pipeline.StepKeepsTopology | MeshDataDeformer.cs:143-157 | No single call changes the index buffer, index format, attribute formats, vertex count, layout or descriptor |
| Pipeline.TopologyInvariant | MeshDataDeformer.cs:143-157 | Over any sequence of calls the index buffer stays equal to the original one, and so do vertex count, layout and descriptor |
| Pipeline.InFlightJobUnaffected | MeshDataDeformer.cs:107-110 | Until the next `LateUpdate`, repeated `Update`s and tunable changes leave the in-flight job, its buffers and the counters as they were. They only change speed and amplitude |
| Pipeline.ParametersCapturedAtSchedule | MeshDataDeformer.cs:120-126 | Tunable changes made after scheduling do not change what the next `LateUpdate` publishes |
| Pipeline.EachFramePublishesOnce | MeshDataDeformer.cs:44-52 | When submesh 0 spans the index buffer, a frame loop of `Update` then `LateUpdate` allocates and publishes exactly one mesh per frame and is idle between frames |
| Pipeline.MismatchNeverPublishes | MeshDataDeformer.cs:145-147 | When submesh 0 does not span the index buffer, no sequence of calls publishes anything, and at most one more writable mesh is allocated |

## Left out

- The displacement arithmetic (`DeformUtilities.cs:7-11`, a sine of time and distance): floating point, so `disp` is an uninterpreted parameter.
- Floats are opaque bit patterns. Equality is bitwise, which is what a struct copy preserves.
- Unity's job system and Burst: the parallel-for is modelled as sequential runs. `Deform.AnyOrderGivesDeformed` stands in for thread-count independence, and `Complete` computes the finished buffer directly.
- The initial contents of a writable mesh are unspecified by Unity. The model zeroes them, and `Deform.AnyOrderGivesDeformed` shows the result does not depend on them.
- Resource plumbing is not modelled: the `Dispose` calls, `MarkDynamic` and the `MeshUpdateFlags` bits (they only suppress Unity's recomputations). Neither is the snapshot acquired in `Awake` (`MeshDataDeformer.cs:27`), which is overwritten without being disposed.
- Normal recalculation is an abstract `solver`. The model does not compute normals.
- `BaseDeformer.cs`: the `MeshFilter` lookup and the default tunables 2.0 and 0.25. `Pipeline.Create` takes speed and amplitude as arguments.
- Changes to the mesh by anyone other than the deformer: the deformer's state owns the mesh, so a snapshot always equals the current mesh.
- Vertex buffers that do not match the struct. The model assumes vertex stream 0 holds exactly the five attributes, all 32-bit floats, in one stream. A mesh with other formats, without tangents or a second UV channel, or split across streams has a different stride. `GetVertexData<VertexData>` (`MeshDataDeformer.cs:121`) would then misread or reject it, after `_scheduled` has already been set (`MeshDataDeformer.cs:112`). The model records the formats but assumes the struct view.
- Index values are copied through 16-bit views on both sides, so the copy is bitwise for either index format. The model copies whole index values and carries the format along.
- `Pipeline.Schedule` requires the mesh to have a submesh 0 (`GetSubMesh(0)`). The invariant guarantees it, so the exception that would leave the flag set without a new job is not modelled. Nor is a component whose `Awake` threw at `MeshDataDeformer.cs:37` for want of a submesh 0: `Pipeline.Create` then yields no deformer, whereas Unity keeps calling `Update`, whose first `ScheduleJob` sets the flag (line 112), allocates (line 113) and throws at line 117, leaving the component stuck.
- `Pipeline.Complete` requires the invariant. Its fields are private and every path keeps the invariant (`Pipeline.Create`, `Pipeline.Step`).
- MeshData.CopyTo: follows `NativeArray` with collection safety checks compiled in (the Editor and development builds), where a length mismatch throws. In a release player the copy is unchecked, overruns the output index buffer and the publish goes ahead. `Pipeline.Complete`'s failure case and `Pipeline.MismatchNeverPublishes` describe the safety-checked build only.
