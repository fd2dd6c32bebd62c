/** Mesh conversion: one shared mesh record per group, built from the
    group's first object. The coordinates are the vertex positions scaled by
    the world scale of that object, axis by axis; the indices are the vertex
    indices of the triangles, three per triangle; and the face colours are
    read from the requested colour layer of the same triangulated mesh. */
module Meshes {
  import opened Wrappers
  import opened Scene
  import FaceColors

  datatype MeshRecord = MeshRecord(meshId: nat, coordinates: seq<real>, indices: seq<nat>)

  /** Component `i` of a 3-vector, in the order x, y, z. */
  function Axis(v: Vec3, i: nat): real
    requires i < 3
  {
    if i == 0 then v.x else if i == 1 then v.y else v.z
  }

  /** The flat coordinate buffer: three entries per vertex, entry `n`
      being component `n % 3` of vertex `n / 3`. */
  function Coordinates(vs: seq<Vec3>): (r: seq<real>) {
    seq(3 * |vs|, n requires 0 <= n < 3 * |vs| => Axis(vs[n / 3], n % 3))
  }

  /** A flat coordinate buffer with every entry multiplied by the scale of
      its axis (entry `k` lies on axis `k % 3`). */
  function Scaled(flat: seq<real>, s: Vec3): (r: seq<real>) {
    seq(|flat|, k requires 0 <= k < |flat| => flat[k] * Axis(s, k % 3))
  }

  function ScaleVertex(v: Vec3, s: Vec3): Vec3 {
    Vec3(v.x * s.x, v.y * s.y, v.z * s.z)
  }

  /** Reference: scaling each vertex component-wise. */
  function ScaleVertices(vs: seq<Vec3>, s: Vec3): (r: seq<Vec3>) {
    seq(|vs|, k requires 0 <= k < |vs| => ScaleVertex(vs[k], s))
  }

  lemma AxisOfScaled(v: Vec3, s: Vec3, i: nat)
    requires i < 3
    ensures Axis(ScaleVertex(v, s), i) == Axis(v, i) * Axis(s, i)
  {
  }

  /** Scaling the flat buffer axis by axis is scaling every vertex. */
  lemma ScaledIsPerVertex(vs: seq<Vec3>, s: Vec3)
    ensures Scaled(Coordinates(vs), s) == Coordinates(ScaleVertices(vs, s))
  {
    var a, b := Scaled(Coordinates(vs), s), Coordinates(ScaleVertices(vs, s));
    assert |a| == |b| == 3 * |vs|;
    forall n | 0 <= n < |a| ensures a[n] == b[n] {
      AxisOfScaled(vs[n / 3], s, n % 3);
    }
  }

  /** Scales a coordinate buffer in place, one axis at a time over every
      third entry. */
  method ScaleInPlace(buf: array<real>, s: Vec3)
    modifies buf
    ensures buf[..] == Scaled(old(buf[..]), s)
  {
    ghost var before := buf[..];
    for axis := 0 to 3
      invariant forall k :: 0 <= k < buf.Length ==>
        buf[k] == if k % 3 < axis then before[k] * Axis(s, k % 3) else before[k]
    {
      ScaleAxis(buf, axis, Axis(s, axis));
    }
    assert forall k :: 0 <= k < buf.Length ==> buf[..][k] == Scaled(before, s)[k];
  }

  /** Multiplies the entries of one axis (every third entry, starting at
      `axis`) by `f`, leaving the others alone. */
  method ScaleAxis(buf: array<real>, axis: nat, f: real)
    requires axis < 3
    modifies buf
    ensures forall k :: 0 <= k < buf.Length ==>
      buf[k] == if k % 3 == axis then old(buf[k]) * f else old(buf[k])
  {
    var j := axis;
    while j < buf.Length
      invariant axis <= j && j % 3 == axis
      invariant forall k :: 0 <= k < buf.Length ==>
        buf[k] == if k % 3 == axis && k < j then old(buf[k]) * f else old(buf[k])
      decreases buf.Length - j
    {
      buf[j] := buf[j] * f;
      j := j + 3;
    }
  }

  /** Corner `i` of a triangle, in the order a, b, c. */
  function Corner(t: Triangle, i: nat): nat
    requires i < 3
  {
    if i == 0 then t.a else if i == 1 then t.b else t.c
  }

  /** The flat index buffer: three vertex indices per triangle, entry `n`
      being corner `n % 3` of triangle `n / 3`. */
  function IndexBuffer(tris: seq<Triangle>): (r: seq<nat>)
    ensures |r| == 3 * |tris|
    ensures forall k, c :: 0 <= k < |tris| && 0 <= c < 3 ==> r[3 * k + c] == Corner(tris[k], c)
  {
    var r := seq(3 * |tris|, n requires 0 <= n < 3 * |tris| => Corner(tris[n / 3], n % 3));
    assert forall k, c :: 0 <= k < |tris| && 0 <= c < 3 ==> r[3 * k + c] == Corner(tris[k], c) by {
      forall k, c | 0 <= k < |tris| && 0 <= c < 3
        ensures r[3 * k + c] == Corner(tris[k], c)
      {
        assert (3 * k + c) / 3 == k && (3 * k + c) % 3 == c;
      }
    }
    r
  }

  /** A triangulated mesh whose triangles use existing vertices and whose
      colour layers hold three corners per triangle. */
  ghost predicate WellFormed(m: MeshSnapshot) {
    && (forall t :: t in m.triangles ==> t.a < |m.vertices| && t.b < |m.vertices| && t.c < |m.vertices|)
    && (forall name :: name in m.colorLayers ==> |m.colorLayers[name]| == 3 * |m.triangles|)
  }

  /** The face colours of a mesh: looked up only when a layer name is given
      and not empty. */
  function FaceColorsFor(m: MeshSnapshot, layer: Option<string>): (r: Result<Option<seq<real>>, ExportError>)
    ensures layer == None || layer == Some("") ==> r == Ok(None)
  {
    if layer.Some? && layer.value != "" then FaceColors.LayerFaceColors(m.colorLayers, layer.value)
    else Ok(None)
  }

  /** What converting a mesh gives: the record and the face colours, or the
      failure of the colour lookup. */
  function Convert(m: MeshSnapshot, index: nat, scale: Vec3, layer: Option<string>)
    : Result<(MeshRecord, Option<seq<real>>), ExportError>
  {
    match FaceColorsFor(m, layer)
    case Err(e) => Err(e)
    case Ok(fc) => Ok((MeshRecord(index, Scaled(Coordinates(m.vertices), scale), IndexBuffer(m.triangles)), fc))
  }

  /** Converts one group's mesh: reads the coordinates into a buffer, scales
      them in place, reads the triangles' indices and the face colours. */
  method ConvertMesh(m: MeshSnapshot, index: nat, scale: Vec3, layer: Option<string>)
    returns (r: Result<(MeshRecord, Option<seq<real>>), ExportError>)
    ensures r == Convert(m, index, scale, layer)
  {
    var flat := Coordinates(m.vertices);
    var buf := new real[|flat|](k requires 0 <= k < |flat| => flat[k]);
    assert buf[..] == flat;
    ScaleInPlace(buf, scale);
    var indices := IndexBuffer(m.triangles);
    var colors := FaceColorsFor(m, layer);
    match colors
    case Err(e) =>
      r := Err(e);
    case Ok(fc) =>
      r := Ok((MeshRecord(index, buf[..], indices), fc));
  }

  /** Conversion keeps the id it is given and fails exactly when a layer is
      requested, the mesh has colour layers, and none has that name. */
  lemma ConvertOutcome(m: MeshSnapshot, index: nat, scale: Vec3, layer: Option<string>)
    ensures Convert(m, index, scale, layer).Err? <==>
      layer.Some? && layer.value != "" && |m.colorLayers| > 0 && layer.value !in m.colorLayers
    ensures Convert(m, index, scale, layer).Err? ==>
      Convert(m, index, scale, layer).error == MissingColorLayer(layer.value)
    ensures Convert(m, index, scale, layer).Ok? ==>
      Convert(m, index, scale, layer).value.0.meshId == index
      && Convert(m, index, scale, layer).value.0.coordinates == Coordinates(ScaleVertices(m.vertices, scale))
  {
    ScaledIsPerVertex(m.vertices, scale);
  }

  /** The mesh record of a well-formed mesh: three coordinates per vertex,
      three indices per triangle (triangle `k`'s corners at `3k`, `3k+1`,
      `3k+2`), each naming one of its vertices. */
  lemma ConvertedMeshValid(m: MeshSnapshot, index: nat, scale: Vec3, layer: Option<string>)
    requires WellFormed(m)
    requires Convert(m, index, scale, layer).Ok?
    ensures var rec := Convert(m, index, scale, layer).value.0;
      |rec.coordinates| == 3 * |m.vertices|
      && |rec.indices| == 3 * |m.triangles|
      && (forall k, c :: 0 <= k < |m.triangles| && 0 <= c < 3 ==> rec.indices[3 * k + c] == Corner(m.triangles[k], c))
      && forall n :: 0 <= n < |rec.indices| ==> rec.indices[n] < |rec.coordinates| / 3
  {
    var rec := Convert(m, index, scale, layer).value.0;
    assert |rec.coordinates| / 3 == |m.vertices|;
    IndexBufferBounds(m.triangles, |m.vertices|);
  }

  /** Triangles over `nv` vertices give indices below `nv`. */
  lemma IndexBufferBounds(tris: seq<Triangle>, nv: nat)
    requires forall t :: t in tris ==> t.a < nv && t.b < nv && t.c < nv
    ensures forall n :: 0 <= n < |IndexBuffer(tris)| ==> IndexBuffer(tris)[n] < nv
  {
    var ib := IndexBuffer(tris);
    forall n | 0 <= n < |ib| ensures ib[n] < nv {
      var k, c := n / 3, n % 3;
      assert n == 3 * k + c;
      assert tris[k] in tris;
    }
  }

  /** Face colours of a well-formed mesh line up with its triangles: four
      channels per triangle, triangle `k` coloured as its first corner. */
  lemma ConvertedColorsAligned(m: MeshSnapshot, index: nat, scale: Vec3, layer: Option<string>)
    requires WellFormed(m)
    requires Convert(m, index, scale, layer).Ok?
    requires Convert(m, index, scale, layer).value.1.Some?
    ensures var (rec, fc) := Convert(m, index, scale, layer).value;
      layer.Some? && layer.value in m.colorLayers
      && |fc.value| == |rec.indices| / 3 * 4
      && forall k, j :: 0 <= k < |m.triangles| && 0 <= j < 4 ==>
           fc.value[4 * k + j] == FaceColors.Channel(m.colorLayers[layer.value][3 * k], j)
  {
    FaceColors.ReduceCornersSpec(m.colorLayers[layer.value], |m.triangles|);
  }
}
