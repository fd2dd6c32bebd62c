/** Element building: one element per exported object, bound to its group's
    mesh, with the object's own placement, colour, type label and info map,
    and the group's face colours. */
module Elements {
  import opened Wrappers
  import opened Scene
  import Labels
  import Info

  /** An element colour, one integer per channel. */
  datatype Color8 = Color8(r: int, g: int, b: int, a: int)

  datatype Element = Element(
    meshId: nat,
    vector: Vec3,
    rotation: Quaternion,
    typeLabel: string,
    color: Color8,
    faceColors: Option<seq<real>>,
    info: map<string, string>)

  /** Python's int() on a number: truncation toward zero. */
  function Truncate(x: real): (n: int)
    ensures 0.0 <= x ==> n as real <= x < n as real + 1.0
    ensures x < 0.0 ==> x <= n as real < x + 1.0
  {
    if x >= 0.0 then x.Floor else -((-x).Floor)
  }

  /** A colour channel in [0, 1] as an integer: int(c * 255). */
  function ChannelByte(c: real): int {
    Truncate(c * 255.0)
  }

  /** Channels in [0, 1] land in 0..255; 1.0 gives 255 and 0.999 gives 254
      (truncation, not rounding). */
  lemma ChannelByteRange(c: real)
    requires 0.0 <= c <= 1.0
    ensures 0 <= ChannelByte(c) <= 255
    ensures c == 1.0 ==> ChannelByte(c) == 255
    ensures c == 0.999 ==> ChannelByte(c) == 254
  {
    var x := c * 255.0;
    assert 0.0 <= x <= 255.0;
  }

  function ElementColor(c: Rgba<real>): Color8 {
    Color8(ChannelByte(c.r), ChannelByte(c.g), ChannelByte(c.b), ChannelByte(c.a))
  }

  /** The element type: the first collection's name in collection mode
      (failing when the object has no collection), otherwise the object's
      name without its numeric suffix. Any mode other than "COLLECTION"
      counts as name mode. */
  function TypeLabel(o: SceneObject, typeFrom: string): (r: Result<string, ExportError>)
    ensures typeFrom == "COLLECTION" ==> (r.Ok? <==> |o.collections| > 0)
    ensures typeFrom == "COLLECTION" && r.Ok? ==> r.value == o.collections[0]
    ensures typeFrom != "COLLECTION" ==> r.Ok? && r.value <= o.name
    ensures r.Err? ==> r.error == NoCollection(o.name)
  {
    if typeFrom == "COLLECTION" then
      if |o.collections| == 0 then Err(NoCollection(o.name)) else Ok(o.collections[0])
    else Ok(Labels.StripNumericSuffix(o.name))
  }

  /** The element of object `o` in mesh `meshId` with the group's face
      colours `fc`. */
  function ElementFor(o: SceneObject, meshId: nat, fc: Option<seq<real>>, typeFrom: string)
    : Result<Element, ExportError>
  {
    match TypeLabel(o, typeFrom)
    case Err(e) => Err(e)
    case Ok(typeName) =>
      Ok(Element(meshId, o.translation, o.rotation, typeName, ElementColor(o.color), fc,
                 Info.InfoMap(o.name, Info.UiProps(o.props, o.runtimeProps))))
  }

  /** Builds the element of one object: colour, info map, placement and
      type label. */
  method BuildElement(o: SceneObject, meshId: nat, fc: Option<seq<real>>, typeFrom: string)
    returns (r: Result<Element, ExportError>)
    ensures r == ElementFor(o, meshId, fc, typeFrom)
  {
    var color := ElementColor(o.color);
    var info := Info.BuildInfo(o.name, o.props, o.runtimeProps);
    var typeName := TypeLabel(o, typeFrom);
    match typeName
    case Err(e) =>
      r := Err(e);
    case Ok(name) =>
      r := Ok(Element(meshId, o.translation, o.rotation, name, color, fc, info));
  }

  /** What an element records about its object: the given mesh id and face
      colours, the object's own placement and colour, and its info map: the
      name under "Name", then every property that is not a runtime property,
      so that "Name" and every such key is present. Building fails only in
      collection mode for an object without a collection. */
  lemma ElementForSpec(o: SceneObject, meshId: nat, fc: Option<seq<real>>, typeFrom: string)
    ensures ElementFor(o, meshId, fc, typeFrom).Err? <==> typeFrom == "COLLECTION" && |o.collections| == 0
    ensures ElementFor(o, meshId, fc, typeFrom).Ok? ==>
      var e := ElementFor(o, meshId, fc, typeFrom).value;
      && e.meshId == meshId && e.faceColors == fc
      && e.vector == o.translation && e.rotation == o.rotation
      && e.color == ElementColor(o.color)
      && e.info == Info.InfoMap(o.name, Info.UiProps(o.props, o.runtimeProps))
      && "Name" in e.info
      && (forall p :: p in o.props && p.key !in o.runtimeProps ==> p.key in e.info)
      && (typeFrom == "COLLECTION" ==> e.typeLabel == o.collections[0])
      && (typeFrom != "COLLECTION" ==> e.typeLabel == Labels.StripNumericSuffix(o.name))
  {
    var info := Info.InfoMap(o.name, Info.UiProps(o.props, o.runtimeProps));
    Info.ObjectInfo(o.name, o.props, o.runtimeProps);
    assert "Name" in info;
    assert forall p :: p in o.props && p.key !in o.runtimeProps ==> p.key in info;
  }
}
