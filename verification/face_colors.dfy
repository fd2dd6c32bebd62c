/** Face-colour reduction: from one RGBA per triangle corner to one RGBA per
    triangle, by keeping the first corner of every consecutive three.

    The host hands the corner colours over as a flat buffer of four channels
    per corner; the exporter reshapes it to rows of four, keeps every third
    row starting with the first, and flattens the rows again. The channel
    type is left abstract. */
module FaceColors {
  import opened Wrappers
  import opened Scene

  /** Channel `j` of an RGBA tuple, in the order r, g, b, a. */
  function Channel<T>(c: Rgba<T>, j: nat): T
    requires j < 4
  {
    if j == 0 then c.r else if j == 1 then c.g else if j == 2 then c.b else c.a
  }

  /** The flat buffer of a sequence of RGBA tuples, four channels each. */
  function Flatten<T>(cs: seq<Rgba<T>>): (r: seq<T>)
    ensures |r| == 4 * |cs|
    decreases |cs|
  {
    if cs == [] then [] else [cs[0].r, cs[0].g, cs[0].b, cs[0].a] + Flatten(cs[1..])
  }

  /** Entry `4k + j` of the flat buffer is channel `j` of tuple `k`. */
  lemma {:induction false} FlattenAt<T>(cs: seq<Rgba<T>>, k: nat, j: nat)
    requires k < |cs| && j < 4
    ensures Flatten(cs)[4 * k + j] == Channel(cs[k], j)
    decreases k
  {
    if k > 0 {
      FlattenAt(cs[1..], k - 1, j);
      assert Flatten(cs)[4 * k + j] == Flatten(cs[1..])[4 * (k - 1) + j];
    }
  }

  /** The buffer cut into rows of four (a reshape to shape (-1, 4)). */
  function Rows<T>(flat: seq<T>): (rows: seq<Rgba<T>>)
    requires |flat| % 4 == 0
    ensures 4 * |rows| == |flat|
    decreases |flat|
  {
    if flat == [] then [] else [Rgba(flat[0], flat[1], flat[2], flat[3])] + Rows(flat[4..])
  }

  /** Cutting a flattened buffer into rows gives the tuples back. */
  lemma {:induction false} RowsOfFlatten<T>(cs: seq<Rgba<T>>)
    ensures Rows(Flatten(cs)) == cs
    decreases |cs|
  {
    if cs != [] {
      assert Flatten(cs)[4..] == Flatten(cs[1..]);
      RowsOfFlatten(cs[1..]);
    }
  }

  /** Rows 0, 3, 6, ... (a slice with step three). */
  function EveryThird<T>(rows: seq<T>): (r: seq<T>)
    ensures |r| == (|rows| + 2) / 3
    ensures forall k :: 0 <= k < |r| ==> r[k] == rows[3 * k]
    decreases |rows|
  {
    if rows == [] then []
    else [rows[0]] + EveryThird(if |rows| >= 3 then rows[3..] else [])
  }

  /** The reduction the exporter applies to a colour layer's corners. */
  function ReduceCorners<T>(corners: seq<Rgba<T>>): seq<T> {
    var flat := Flatten(corners);
    Flatten(EveryThird(Rows(flat)))
  }

  /** Per-triangle colours: with three corners per triangle there are four
      channels per triangle, and triangle `k` has the colour of corner `3k`. */
  lemma ReduceCornersSpec<T>(corners: seq<Rgba<T>>, triangles: nat)
    requires |corners| == 3 * triangles
    ensures |ReduceCorners(corners)| == 4 * triangles
    ensures forall k, j :: 0 <= k < triangles && 0 <= j < 4 ==>
      ReduceCorners(corners)[4 * k + j] == Channel(corners[3 * k], j)
  {
    RowsOfFlatten(corners);
    var sub := EveryThird(corners);
    forall k, j | 0 <= k < triangles && 0 <= j < 4
      ensures ReduceCorners(corners)[4 * k + j] == Channel(corners[3 * k], j)
    {
      FlattenAt(sub, k, j);
    }
  }

  /** The colour layer lookup: nothing when the mesh has no colour layers,
      the reduced colours of the named layer when it has one by that name,
      and a missing-key failure otherwise. */
  function LayerFaceColors<T>(layers: map<string, seq<Rgba<T>>>, name: string)
    : (r: Result<Option<seq<T>>, ExportError>)
    ensures r == Ok(None) <==> |layers| == 0
    ensures r.Err? <==> |layers| > 0 && name !in layers
    ensures r.Err? ==> r.error == MissingColorLayer(name)
    ensures r.Ok? && r.value.Some? ==> name in layers && r.value.value == ReduceCorners(layers[name])
  {
    if |layers| == 0 then Ok(None)
    else if name in layers then Ok(Some(ReduceCorners(layers[name])))
    else Err(MissingColorLayer(name))
  }
}
