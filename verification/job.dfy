/**
  `DeformMeshDataJob`: the parallel-for job that rewrites every vertex of
  the snapshot into the output buffer, one index per `Execute` call.
 */
module Deform {
  import opened Vertex

  /** `DeformerUtilities.CalculateDisplacement(position, time, speed,
      amplitude)`, left uninterpreted. */
  type Displacement = (Vec3, Float, Float, Float) -> Float

  /** The three floats the job captures when it is built. */
  datatype JobParams = JobParams(speed: Float, amplitude: Float, time: Float)

  /** The job's read-only inputs: the snapshot's vertex data and the
      captured parameters. Its output buffer is passed to `Execute`. */
  datatype DeformJob = DeformJob(vertexData: seq<VertexData>, params: JobParams)

  /** The record `Execute` writes for one input vertex: the height of the
      position is replaced by the displacement; all else is carried over. */
  function Displaced(v: VertexData, p: JobParams, disp: Displacement): (w: VertexData)
    ensures w.position.x == v.position.x
    ensures w.position.y == disp(v.position, p.time, p.speed, p.amplitude)
    ensures w.position.z == v.position.z
    ensures w.normal == v.normal && w.tangent == v.tangent
    ensures w.uv == v.uv && w.uv1 == v.uv1
  {
    var position := v.position.(y := disp(v.position, p.time, p.speed, p.amplitude));
    VertexData(position, v.normal, v.tangent, v.uv, v.uv1)
  }

  /** The whole output buffer once every index has been executed: the
      per-vertex rewrite mapped over the input. */
  function Deformed(job: DeformJob, disp: Displacement): (r: seq<VertexData>)
    ensures |r| == |job.vertexData|
  {
    seq(|job.vertexData|, i requires 0 <= i < |job.vertexData| => Displaced(job.vertexData[i], job.params, disp))
  }

  /** `Execute(index)`: reads input `index`, writes output `index` and no
      other slot. The new height is the displacement itself, not the old
      height plus the displacement. */
  function Execute(job: DeformJob, disp: Displacement, output: seq<VertexData>, index: int): (r: seq<VertexData>)
    requires 0 <= index < |job.vertexData| && index < |output|
    ensures |r| == |output|
    ensures forall j :: 0 <= j < |output| && j != index ==> r[j] == output[j]
    ensures r[index] == Displaced(job.vertexData[index], job.params, disp)
  {
    output[index := Displaced(job.vertexData[index], job.params, disp)]
  }

  /** What `Execute(index)` writes depends on input `index` and the
      parameters only: two jobs that agree there write the same record. */
  lemma ExecuteReadsOnlyItsIndex(job1: DeformJob, job2: DeformJob, disp: Displacement, out1: seq<VertexData>, out2: seq<VertexData>, index: int)
    requires 0 <= index < |job1.vertexData| && index < |out1|
    requires 0 <= index < |job2.vertexData| && index < |out2|
    requires job1.vertexData[index] == job2.vertexData[index] && job1.params == job2.params
    ensures Execute(job1, disp, out1, index)[index] == Execute(job2, disp, out2, index)[index]
  {
  }

  /** Every index of `order` is a valid vertex index. */
  predicate IndicesIn(order: seq<int>, n: nat)
  {
    forall k :: 0 <= k < |order| ==> 0 <= order[k] < n
  }

  /** Executes the job at the indices of `order`, one after another: one
      possible schedule of the parallel-for. */
  function ExecuteInOrder(job: DeformJob, disp: Displacement, output: seq<VertexData>, order: seq<int>): (r: seq<VertexData>)
    requires IndicesIn(order, |job.vertexData|) && |output| == |job.vertexData|
    ensures |r| == |output|
    decreases |order|
  {
    if order == [] then output
    else ExecuteInOrder(job, disp, Execute(job, disp, output, order[0]), order[1..])
  }

  /** After any schedule, a slot holds its rewritten input vertex if its
      index was executed and its old contents otherwise. */
  lemma {:induction false} ExecuteInOrderEffect(job: DeformJob, disp: Displacement, output: seq<VertexData>, order: seq<int>)
    requires IndicesIn(order, |job.vertexData|) && |output| == |job.vertexData|
    ensures forall j :: 0 <= j < |output| ==>
      ExecuteInOrder(job, disp, output, order)[j]
        == if j in order then Displaced(job.vertexData[j], job.params, disp) else output[j]
    decreases |order|
  {
    if order != [] {
      var next := Execute(job, disp, output, order[0]);
      ExecuteInOrderEffect(job, disp, next, order[1..]);
      forall j | 0 <= j < |output|
        ensures ExecuteInOrder(job, disp, output, order)[j]
          == if j in order then Displaced(job.vertexData[j], job.params, disp) else output[j]
      {
        assert order == [order[0]] + order[1..];
        if j !in order[1..] && j != order[0] {
          assert j !in order;
        }
      }
    }
  }

  /** Running `Execute` once or more on every index, in any order and from
      any initial buffer contents, yields the mapped output. */
  lemma AnyOrderGivesDeformed(job: DeformJob, disp: Displacement, output: seq<VertexData>, order: seq<int>)
    requires IndicesIn(order, |job.vertexData|) && |output| == |job.vertexData|
    requires forall i :: 0 <= i < |job.vertexData| ==> i in order
    ensures ExecuteInOrder(job, disp, output, order) == Deformed(job, disp)
  {
    ExecuteInOrderEffect(job, disp, output, order);
  }

  /** Two schedules that both cover every index produce the same buffer. */
  lemma ScheduleOrderIrrelevant(job: DeformJob, disp: Displacement, out1: seq<VertexData>, out2: seq<VertexData>, order1: seq<int>, order2: seq<int>)
    requires |out1| == |job.vertexData| && |out2| == |job.vertexData|
    requires IndicesIn(order1, |job.vertexData|) && IndicesIn(order2, |job.vertexData|)
    requires forall i :: 0 <= i < |job.vertexData| ==> i in order1 && i in order2
    ensures ExecuteInOrder(job, disp, out1, order1) == ExecuteInOrder(job, disp, out2, order2)
  {
    AnyOrderGivesDeformed(job, disp, out1, order1);
    AnyOrderGivesDeformed(job, disp, out2, order2);
  }

  /** The inner-loop batch size the job is scheduled with: each worker
      takes a run of 64 consecutive indices. */
  const BatchSize: nat := 64

  /** Number of batches needed to cover `n` indices. */
  function BatchCount(n: nat): (count: nat)
    ensures count * BatchSize >= n
    ensures count > 0 ==> (count - 1) * BatchSize < n
  {
    (n + BatchSize - 1) / BatchSize
  }

  /** `Schedule(vertexCount, 64)` followed by `Complete`: the batches of 64
      consecutive indices are taken in the order `batches` lists them, as
      the worker threads happen to pick them up, and each batch runs its
      indices in ascending order. Whatever the order, provided every batch
      is taken, the output is the mapped input. */
  method RunJob(job: DeformJob, disp: Displacement, output: seq<VertexData>, batches: seq<nat>) returns (r: seq<VertexData>)
    requires |output| == |job.vertexData|
    requires forall k :: 0 <= k < |batches| ==> batches[k] < BatchCount(|job.vertexData|)
    requires forall b :: 0 <= b < BatchCount(|job.vertexData|) ==> b in batches
    ensures r == Deformed(job, disp)
  {
    var n := |job.vertexData|;
    r := output;
    var k := 0;
    while k < |batches|
      invariant 0 <= k <= |batches| && |r| == n
      invariant forall j :: 0 <= j < n ==>
        r[j] == if j / BatchSize in batches[..k] then Displaced(job.vertexData[j], job.params, disp) else output[j]
    {
      var start := batches[k] * BatchSize;
      var end := if start + BatchSize < n then start + BatchSize else n;
      var i := start;
      while i < end
        invariant start <= i && (start <= end ==> i <= end) && |r| == n
        invariant forall j :: 0 <= j < n ==>
          r[j] == if j / BatchSize in batches[..k] || start <= j < i then Displaced(job.vertexData[j], job.params, disp) else output[j]
      {
        r := Execute(job, disp, r, i);
        i := i + 1;
      }
      forall j | 0 <= j < n
        ensures (j / BatchSize in batches[..k + 1]) <==> (j / BatchSize in batches[..k] || start <= j < end)
      {
        assert batches[..k + 1] == batches[..k] + [batches[k]];
      }
      k := k + 1;
    }
    forall j | 0 <= j < n
      ensures r[j] == Deformed(job, disp)[j]
    {
      assert batches[..k] == batches;
      assert j / BatchSize < BatchCount(n);
    }
  }
}
