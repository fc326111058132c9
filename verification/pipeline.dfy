/**
  `MeshDataDeformer`: the two-phase schedule/complete cycle that snapshots
  the mesh, runs the deform job into a fresh writable mesh and publishes it.
 */
module Pipeline {
  import opened Wrappers
  import opened Vertex
  import opened MeshData
  import opened Deform

  /** What exists while a job is in flight: the snapshot it reads, the job
      with its captured parameters, and the output mesh it writes. */
  datatype InFlight = InFlight(snapshot: Mesh, job: DeformJob, output: OutputMesh)

  /** The deformer's fields. `allocations` and `publishes` count writable
      meshes allocated and applied so far. */
  datatype Deformer = Deformer(
    mesh: Mesh,
    layout: seq<VertexAttributeDescriptor>,
    descriptor: SubMeshDescriptor,
    speed: Float,
    amplitude: Float,
    scheduled: bool,
    inFlight: Option<InFlight>,
    allocations: nat,
    publishes: nat)

  /** A job in flight was scheduled against `mesh` with `layout`. */
  predicate InFlightFor(f: InFlight, mesh: Mesh, layout: seq<VertexAttributeDescriptor>)
    requires |mesh.subMeshes| > 0
  {
    && f.snapshot == mesh
    && f.job.vertexData == mesh.vertices
    && |f.output.vertices| == |mesh.vertices|
    && |f.output.indices| == mesh.subMeshes[0].indexCount
    && f.output.layout == layout
    && f.output.indexFormat == mesh.indexFormat
  }

  /** The deformer's invariant: a job is in flight exactly when the
      `scheduled` flag is set; every allocated writable mesh but the one in
      flight has been published; the layout and the submesh descriptor built
      at start-up still describe the mesh. */
  predicate Inv(s: Deformer)
  {
    && (s.scheduled <==> s.inFlight.Some?)
    && s.allocations == s.publishes + (if s.scheduled then 1 else 0)
    && |s.mesh.subMeshes| > 0
    && s.layout == Layout(s.mesh.formats)
    && s.descriptor.indexStart == 0
    && s.descriptor.indexCount == s.mesh.subMeshes[0].indexCount
    && s.descriptor.topology == Triangles
    && s.descriptor.firstVertex == 0
    && s.descriptor.vertexCount == |s.mesh.vertices|
    && (s.inFlight.Some? ==> InFlightFor(s.inFlight.value, s.mesh, s.layout))
  }

  /** `Awake` / `CreateMeshData`: builds the vertex layout from the mesh's
      attribute formats and a submesh descriptor covering submesh 0's
      indices and all vertices. Fails when the mesh has no submesh 0. */
  function Create(mesh: Mesh, speed: Float, amplitude: Float): (r: Result<Deformer, Fault>)
    ensures r.Success? <==> |mesh.subMeshes| > 0
    ensures r.Failure? ==> r.error == NoSubMesh
    ensures r.Success? ==>
      && Inv(r.value)
      && r.value.mesh == mesh && r.value.speed == speed && r.value.amplitude == amplitude
      && !r.value.scheduled && r.value.allocations == 0 && r.value.publishes == 0
      && r.value.descriptor.indexCount == mesh.subMeshes[0].indexCount
  {
    if |mesh.subMeshes| == 0 then Failure(NoSubMesh)
    else
      var descriptor := SubMeshDescriptor(0, mesh.subMeshes[0].indexCount, Triangles, 0, |mesh.vertices|);
      Success(Deformer(mesh, Layout(mesh.formats), descriptor, speed, amplitude, false, None, 0, 0))
  }

  /** `ScheduleJob`, run from `Update`. While a job is in flight it does
      nothing. Otherwise it allocates a writable mesh sized from a fresh
      snapshot (vertex count of the mesh, index count of submesh 0) and
      builds the job from the snapshot, the current speed and amplitude and
      the time passed in. */
  function Schedule(s: Deformer, time: Float): (r: Deformer)
    requires |s.mesh.subMeshes| > 0
    ensures s.scheduled ==> r == s
    ensures !s.scheduled ==>
      && r.scheduled && r.inFlight.Some?
      && r.allocations == s.allocations + 1
      && r.inFlight.value.snapshot == s.mesh
      && |r.inFlight.value.output.vertices| == |s.mesh.vertices|
      && |r.inFlight.value.output.indices| == s.mesh.subMeshes[0].indexCount
      && r.inFlight.value.output.indexFormat == s.mesh.indexFormat
      && r.inFlight.value.output.layout == s.layout
      && r.inFlight.value.job.vertexData == s.mesh.vertices
      && r.inFlight.value.job.params == JobParams(s.speed, s.amplitude, time)
      && r.(scheduled := s.scheduled, inFlight := s.inFlight, allocations := s.allocations) == s
  {
    if s.scheduled then s
    else
      var snapshot := s.mesh;
      var output := Allocate(|snapshot.vertices|, s.layout, snapshot.subMeshes[0].indexCount, snapshot.indexFormat);
      var job := DeformJob(snapshot.vertices, JobParams(s.speed, s.amplitude, time));
      s.(scheduled := true, inFlight := Some(InFlight(snapshot, job, output)), allocations := s.allocations + 1)
  }

  /** The mesh `m` is what publishing the in-flight job `f` under the
      submesh descriptor `d` produces: the snapshot's index buffer, one
      submesh `d`, and per vertex the job's rewritten record with its
      normal recomputed afterwards from the rewritten mesh. */
  predicate PublishedFrom(m: Mesh, f: InFlight, d: SubMeshDescriptor, disp: Displacement, solver: NormalSolver)
  {
    && m.indices == f.snapshot.indices
    && m.indexFormat == f.output.indexFormat
    && m.subMeshes == [d]
    && Layout(m.formats) == f.output.layout
    && |m.vertices| == |f.job.vertexData|
    && forall i :: 0 <= i < |m.vertices| ==>
      m.vertices[i] == Displaced(f.job.vertexData[i], f.job.params, disp).(normal := solver(m.(vertices := Deformed(f.job, disp)), i))
  }

  /** `CompleteJob`, run from `LateUpdate`. With no job in flight it does
      nothing. Otherwise it waits for the job, copies the snapshot's index
      buffer into the output, gives the output the single submesh built at
      start-up, applies it to the mesh, recomputes normals and clears the
      flag. With Unity's collection safety checks on, the copy throws when
      submesh 0's index count differs from the
      snapshot's index buffer length; the exception leaves every field as
      it was, the job still in flight. */
  function Complete(s: Deformer, disp: Displacement, solver: NormalSolver): (r: Result<Deformer, Fault>)
    requires Inv(s)
    ensures !s.scheduled ==> r == Success(s)
    ensures s.scheduled ==>
      (r.Success? <==> |s.inFlight.value.snapshot.indices| == |s.inFlight.value.output.indices|)
    ensures r.Failure? ==> r.error == IndexCountMismatch
    ensures s.scheduled && r.Success? ==>
      && !r.value.scheduled && r.value.inFlight == None
      && r.value.publishes == s.publishes + 1
      && PublishedFrom(r.value.mesh, s.inFlight.value, s.descriptor, disp, solver)
      && r.value.(mesh := s.mesh, scheduled := s.scheduled, inFlight := s.inFlight, publishes := s.publishes) == s
  {
    if !s.scheduled then Success(s)
    else
      var f := s.inFlight.value;
      var output := f.output.(vertices := Deformed(f.job, disp));
      match CopyTo(f.snapshot.indices, output.indices)
      case Failure(e) => Failure(e)
      case Success(indices) =>
        var applied := Apply(output.(indices := indices, subMeshes := [s.descriptor]));
        assert applied.vertices == Deformed(f.job, disp);
        Success(s.(mesh := RecalculateNormals(applied, solver), scheduled := false, inFlight := None,
                   publishes := s.publishes + 1))
  }

  /** One thing the host does to the deformer: a frame's `Update` at some
      time, a frame's `LateUpdate`, or a change to a serialized tunable. */
  datatype Call = Update(time: Float) | LateUpdate | SetSpeed(speed: Float) | SetAmplitude(amplitude: Float)

  /** The deformer after one call. A `LateUpdate` that throws leaves the
      fields as they were. */
  function Step(s: Deformer, c: Call, disp: Displacement, solver: NormalSolver): (r: Deformer)
    requires Inv(s)
    ensures Inv(r)
  {
    match c
    case Update(time) => Schedule(s, time)
    case LateUpdate =>
      (match Complete(s, disp, solver)
       case Success(t) => t
       case Failure(_) => s)
    case SetSpeed(v) => s.(speed := v)
    case SetAmplitude(v) => s.(amplitude := v)
  }

  /** The deformer after a sequence of calls; every state along the way
      satisfies the invariant. */
  function Replay(s: Deformer, calls: seq<Call>, disp: Displacement, solver: NormalSolver): (r: Deformer)
    requires Inv(s)
    ensures Inv(r)
    ensures r.allocations <= r.publishes + 1
    ensures r.allocations >= s.allocations && r.publishes >= s.publishes
    decreases |calls|
  {
    if calls == [] then s
    else Replay(Step(s, calls[0], disp, solver), calls[1..], disp, solver)
  }

  /** A publish from a well-formed deformer leaves the mesh with one
      submesh that draws all of its indices and vertices as triangles. */
  lemma PublishCoversMesh(s: Deformer, disp: Displacement, solver: NormalSolver)
    requires Inv(s) && s.scheduled && Complete(s, disp, solver).Success?
    ensures CoversWholeMesh(s.descriptor, Complete(s, disp, solver).value.mesh)
    ensures Complete(s, disp, solver).value.mesh.subMeshes == [s.descriptor]
  {
  }

  /** No call changes the mesh's index buffer, vertex count, formats, the
      layout or the submesh descriptor: only vertex attributes move. */
  lemma StepKeepsTopology(s: Deformer, c: Call, disp: Displacement, solver: NormalSolver)
    requires Inv(s)
    ensures Step(s, c, disp, solver).mesh.indices == s.mesh.indices
    ensures Step(s, c, disp, solver).mesh.indexFormat == s.mesh.indexFormat
    ensures Step(s, c, disp, solver).mesh.formats == s.mesh.formats
    ensures |Step(s, c, disp, solver).mesh.vertices| == |s.mesh.vertices|
    ensures Step(s, c, disp, solver).layout == s.layout
    ensures Step(s, c, disp, solver).descriptor == s.descriptor
  {
  }

  /** Over any sequence of calls the index buffer is never changed and the
      vertex count, layout and submesh descriptor stay those of start-up. */
  lemma {:induction false} TopologyInvariant(s: Deformer, calls: seq<Call>, disp: Displacement, solver: NormalSolver)
    requires Inv(s)
    ensures Replay(s, calls, disp, solver).mesh.indices == s.mesh.indices
    ensures Replay(s, calls, disp, solver).mesh.indexFormat == s.mesh.indexFormat
    ensures |Replay(s, calls, disp, solver).mesh.vertices| == |s.mesh.vertices|
    ensures Replay(s, calls, disp, solver).layout == s.layout
    ensures Replay(s, calls, disp, solver).descriptor == s.descriptor
    decreases |calls|
  {
    if calls != [] {
      StepKeepsTopology(s, calls[0], disp, solver);
      TopologyInvariant(Step(s, calls[0], disp, solver), calls[1..], disp, solver);
    }
  }

  /** The host never calls `LateUpdate`. */
  predicate NoLateUpdate(calls: seq<Call>)
  {
    forall k :: 0 <= k < |calls| ==> !calls[k].LateUpdate?
  }

  /** Once a job is in flight, nothing before the next `LateUpdate` touches
      it: further `Update`s do nothing and changes to speed or amplitude only
      change the fields read by the next schedule. */
  lemma {:induction false} InFlightJobUnaffected(s: Deformer, calls: seq<Call>, disp: Displacement, solver: NormalSolver)
    requires Inv(s) && s.scheduled && NoLateUpdate(calls)
    ensures Replay(s, calls, disp, solver).(speed := s.speed, amplitude := s.amplitude) == s
    decreases |calls|
  {
    if calls != [] {
      assert NoLateUpdate(calls[1..]) by {
        forall k | 0 <= k < |calls[1..]| ensures !calls[1..][k].LateUpdate? {
          assert calls[1..][k] == calls[k + 1];
        }
      }
      InFlightJobUnaffected(Step(s, calls[0], disp, solver), calls[1..], disp, solver);
    }
  }

  /** Speed, amplitude and time are captured at schedule time: after any
      number of tunable changes and repeated `Update`s, the next
      `LateUpdate` publishes exactly what it would have published without
      them. */
  lemma ParametersCapturedAtSchedule(s: Deformer, time: Float, calls: seq<Call>, disp: Displacement, solver: NormalSolver)
    requires Inv(s) && !s.scheduled && NoLateUpdate(calls)
    ensures Inv(Replay(Schedule(s, time), calls, disp, solver))
    ensures Complete(Replay(Schedule(s, time), calls, disp, solver), disp, solver).Success?
        == Complete(Schedule(s, time), disp, solver).Success?
    ensures Complete(Schedule(s, time), disp, solver).Success? ==>
      Complete(Replay(Schedule(s, time), calls, disp, solver), disp, solver).value.mesh
        == Complete(Schedule(s, time), disp, solver).value.mesh
  {
    var s1 := Schedule(s, time);
    InFlightJobUnaffected(s1, calls, disp, solver);
  }

  /** Running `calls` then `more` is running their concatenation. */
  lemma {:induction false} ReplayAppend(s: Deformer, calls: seq<Call>, more: seq<Call>, disp: Displacement, solver: NormalSolver)
    requires Inv(s)
    ensures Replay(s, calls + more, disp, solver) == Replay(Replay(s, calls, disp, solver), more, disp, solver)
    decreases |calls|
  {
    if calls == [] {
      assert calls + more == more;
    } else {
      assert (calls + more)[0] == calls[0];
      assert (calls + more)[1..] == calls[1..] + more;
      ReplayAppend(Step(s, calls[0], disp, solver), calls[1..], more, disp, solver);
    }
  }

  /** The host's frame loop: `Update` at each frame's time, then
      `LateUpdate`. */
  function Frames(times: seq<Float>): (calls: seq<Call>)
    ensures |calls| == 2 * |times|
    ensures forall k :: 0 <= k < |times| ==> calls[2 * k] == Update(times[k]) && calls[2 * k + 1] == LateUpdate
  {
    if times == [] then [] else [Update(times[0]), LateUpdate] + Frames(times[1..])
  }

  /** When submesh 0 spans the whole index buffer, every frame of the loop
      schedules one job and publishes it: each frame allocates exactly one
      writable mesh and the deformer is idle between frames. */
  lemma {:induction false} EachFramePublishesOnce(s: Deformer, times: seq<Float>, disp: Displacement, solver: NormalSolver)
    requires Inv(s) && !s.scheduled && s.descriptor.indexCount == |s.mesh.indices|
    ensures !Replay(s, Frames(times), disp, solver).scheduled
    ensures Replay(s, Frames(times), disp, solver).publishes == s.publishes + |times|
    ensures Replay(s, Frames(times), disp, solver).allocations == s.allocations + |times|
    decreases |times|
  {
    if times != [] {
      var frame := [Update(times[0]), LateUpdate];
      assert Frames(times) == frame + Frames(times[1..]);
      ReplayAppend(s, frame, Frames(times[1..]), disp, solver);
      var s1 := Step(s, Update(times[0]), disp, solver);
      var s2 := Step(s1, LateUpdate, disp, solver);
      assert Replay(s, frame, disp, solver) == s2 by {
        assert frame[1..] == [LateUpdate];
        assert Replay(s1, [LateUpdate], disp, solver) == Replay(s2, [], disp, solver);
      }
      StepKeepsTopology(s, Update(times[0]), disp, solver);
      StepKeepsTopology(s1, LateUpdate, disp, solver);
      EachFramePublishesOnce(s2, times[1..], disp, solver);
    }
  }

  /** When submesh 0 does not span the whole index buffer, the
      safety-checked index copy throws on every `LateUpdate`: whatever the host does, nothing is ever
      published again and at most the one job stays in flight. */
  lemma {:induction false} MismatchNeverPublishes(s: Deformer, calls: seq<Call>, disp: Displacement, solver: NormalSolver)
    requires Inv(s) && s.descriptor.indexCount != |s.mesh.indices|
    ensures Replay(s, calls, disp, solver).publishes == s.publishes
    ensures Replay(s, calls, disp, solver).allocations <= s.allocations + 1
    decreases |calls|
  {
    if calls != [] {
      var s1 := Step(s, calls[0], disp, solver);
      StepKeepsTopology(s, calls[0], disp, solver);
      MismatchNeverPublishes(s1, calls[1..], disp, solver);
    }
  }
}
