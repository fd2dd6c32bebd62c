/** Value snapshots of what the exporter reads from the host scene.

    The exporter only ever reads Blender objects and meshes; here each object
    is a plain value holding exactly the attributes the export path consults.
    Results of host computations the model does not reproduce (the evaluated
    and triangulated mesh, the decomposition of the world matrix, Python's
    str() of a custom property value) are fields of the snapshot. */
module Scene {

  /** A 3-vector of the host's floats (modelled as exact reals). */
  datatype Vec3 = Vec3(x: real, y: real, z: real)

  /** A rotation quaternion, copied verbatim into an element. */
  datatype Quaternion = Quaternion(x: real, y: real, z: real, w: real)

  /** One RGBA tuple over some channel type. */
  datatype Rgba<T> = Rgba(r: T, g: T, b: T, a: T)

  /** One triangle of a triangulated mesh: three vertex indices. */
  datatype Triangle = Triangle(a: nat, b: nat, c: nat)

  /** The evaluated mesh of an object after triangulation: vertex positions,
      triangles, and the per-corner colour layers keyed by layer name
      (one RGBA per triangle corner, corners stored triangle by triangle). */
  datatype MeshSnapshot = MeshSnapshot(
    vertices: seq<Vec3>,
    triangles: seq<Triangle>,
    colorLayers: map<string, seq<Rgba<real>>>)

  /** A custom property as (key, text), where text is what str() gives for
      the property's value. */
  datatype CustomProp = CustomProp(key: string, text: string)

  /** A scene object as the exporter sees it. `id` is the object's identity,
      `data` the identity of the geometry data block it uses (possibly shared
      with other objects). `scale` is the object's own local scale;
      `worldScale`, `rotation` and `translation` are the decomposition of its
      world matrix. `runtimeProps` are the identifiers of the host's
      runtime-reflected properties of the object's type. */
  datatype SceneObject = SceneObject(
    id: nat,
    objType: string,
    data: nat,
    modifiers: seq<string>,
    scale: Vec3,
    name: string,
    collections: seq<string>,
    props: seq<CustomProp>,
    runtimeProps: set<string>,
    color: Rgba<real>,
    worldScale: Vec3,
    rotation: Quaternion,
    translation: Vec3,
    evaluated: MeshSnapshot)

  /** Why an export aborts: a requested colour layer that the mesh lacks
      (a KeyError in the source), or an object without any collection when
      types come from collections (an IndexError in the source). */
  datatype ExportError = MissingColorLayer(layer: string) | NoCollection(objectName: string)

  /** The object types that are exported; objects of every other type
      (lamps, cameras, empties, but also grease pencil, volumes, point
      clouds) are skipped. */
  predicate Exportable(o: SceneObject) {
    o.objType in {"MESH", "CURVE", "FONT", "META", "SURFACE"}
  }

  /** An object with modifiers or a non-unit local scale cannot share its
      geometry with other objects. */
  predicate NeedsOwnMesh(o: SceneObject) {
    |o.modifiers| > 0 || o.scale.x != 1.0 || o.scale.y != 1.0 || o.scale.z != 1.0
  }

  /** The grouping key: the object itself, or the data block it uses. */
  datatype Key = ObjKey(objId: nat) | DataKey(dataId: nat)

  function KeyOf(o: SceneObject): (k: Key)
    ensures k.ObjKey? <==> NeedsOwnMesh(o)
    ensures k.ObjKey? ==> k.objId == o.id
    ensures k.DataKey? ==> k.dataId == o.data
  {
    if NeedsOwnMesh(o) then ObjKey(o.id) else DataKey(o.data)
  }

  /** The exportable objects of `objs`, in input order. */
  function ExportableObjects(objs: seq<SceneObject>): (r: seq<SceneObject>)
    ensures |r| <= |objs|
    ensures forall o :: o in r <==> o in objs && Exportable(o)
  {
    if objs == [] then []
    else
      var rest := ExportableObjects(objs[..|objs| - 1]);
      var o := objs[|objs| - 1];
      assert objs == objs[..|objs| - 1] + [o];
      if Exportable(o) then rest + [o] else rest
  }
}
