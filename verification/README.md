# dotbim export core, modelled in Dafny

This project models the export path of the Blender add-on that writes a
scene as a dotbim (`.bim`) file, `blender_to_dotbim.py`. Given the objects
to export, the exporter does the following:

1. It drops every object whose type is not one of MESH, CURVE, FONT, META
   and SURFACE.
2. It groups the remaining objects in an insertion-ordered dictionary. An
   object with modifiers or a non-unit local scale gets a group of its own,
   keyed by the object. Any other object is filed under the data block it
   uses, so objects that instance the same geometry share one mesh.
3. It numbers the groups 0, 1, … in the order their keys were first seen.
   For each group it converts the evaluated, triangulated mesh of the
   group's first object into a mesh record:
   - the coordinates, scaled axis by axis by that object's world scale;
   - three vertex indices per triangle;
   - optionally, the per-triangle face colours of a named colour layer.
     The first of each triangle's three corner colours is kept.
4. It builds one element per object of the group. An element holds:
   - the group's mesh id and face colours;
   - the object's own translation, rotation and colour. Each channel is
     `int(c * 255)`, a truncation.
   - a type label. In collection mode this is the name of the object's
     first collection. Otherwise it is the object's name with a trailing
     `.<digits>` suffix removed.
   - an info map. It holds `"Name"` and then every custom property that is
     not a runtime-reflected property, with later writes replacing earlier
     ones.
5. It assembles a document with format version `1.0.0`, the meshes, the
   elements, and the author and date as file info.

The model is organised as follows:

- **Values.** Objects and meshes are value snapshots (module `Scene`).
- **Loops.** Each loop of the exporter is a method proved against a
  specification function:
  - `Grouping.GroupObjects` is the first loop, over the objects.
  - `Meshes.ScaleInPlace` scales the coordinate buffer in place, as an
    `array`.
  - `Info.BuildInfo` fills the info map.
  - `Export.BuildGroupElements` is the loop over the objects of a group.
  - `Export.ExportObjects` is the loop over the groups.
- **Errors.** The exceptions the source raises are modelled as `Err`
  results of a `Result` type.
- **Properties.** The lemmas state what the document contains: the
  partition into groups, dense mesh ids, the count and provenance of the
  elements, shared face colours, valid buffers, the failure conditions,
  and the type-label rules.

Four behaviours of the code are easy to overlook. The model keeps each of
them:

- **Missing colour layer.** A missing colour layer aborts the export. The
  code looks the layer up with `mesh.vertex_colors[layer_name]`
  (`blender_to_dotbim.py:48`). That raises a `KeyError` when the mesh has
  colour layers but none with that name. The model returns
  `MissingColorLayer`, and `Export.ExportFailure` states when this
  happens. Face colours are left out only in two cases: no layer name is
  given (`None` or `""`), or the mesh has no colour layers at all.
- **Newline after the suffix.** The pattern `\.[0-9]+$` (line 102), with
  Python's `$`, also matches just before a final newline. So `"Wall.003\n"`
  becomes `"Wall"` (`Labels.StripUndoesSuffixBeforeNewline`).
- **Object without a collection.** In collection mode, an object that
  belongs to no collection makes `users_collection[0]` raise an
  `IndexError` (line 98). The model returns `NoCollection`.
- **Scale of a shared mesh.** A shared mesh is scaled by the world scale of
  the group's first object only (lines 22-24 and 70-77;
  `Export.ExportElements` states this). The decision to share is taken on
  the local scale (line 65). Take two objects that share data, both with
  unit local scale but with differently scaled parents: their common mesh
  has the first object's scale baked in.

## Model

| member | source | states |
|---|---|---|
| Scene.KeyOf | blender_to_dotbim.py:65-68 | the key is the object itself exactly when it has modifiers or a non-unit local scale, and otherwise the data block it uses |
| Scene.ExportableObjects | blender_to_dotbim.py:62-64 | an object survives the type filter exactly when it is in the input and its type is MESH, CURVE, FONT, META or SURFACE |
| Grouping.FindKey | blender_to_dotbim.py:66-68 | the dictionary lookup finds a group with the key, or there is none with that key |
| Grouping.Members | blender_to_dotbim.py:62-68 | reference definition: exactly the exportable objects with a given key, in input order |
| Grouping.FirstSeen | blender_to_dotbim.py:62-69 | the first input position holding an exportable object with the key, and no earlier one |
| Grouping.AddUser | blender_to_dotbim.py:65-68 | reference definition of one dictionary update: append the object to its key's group, or open a new group at the end; its effect on every group is stated by `Grouping.GroupsOfSpec` (through the step lemmas) and `Grouping.GroupsPartition` |
| Grouping.GroupsOf | blender_to_dotbim.py:59-68 | reference definition of the dictionary the first loop leaves; characterised by `Grouping.GroupsOfSpec`, `Grouping.GroupsPartition`, `Grouping.SkippedObjectsIgnored`, `Grouping.GroupOfKey`, `Grouping.OwnMeshIsSingleton` and `Grouping.SharedDataSharesGroup` |
| Grouping.GroupObjects | blender_to_dotbim.py:59-68 | the grouping loop leaves exactly the groups `GroupsOf` describes |
| Grouping.GroupsOfSpec | blender_to_dotbim.py:59-69 | the keys are distinct; each group holds all and only the exportable objects with its key, in input order, and is non-empty; a key has a group exactly when some exportable object has it; groups are in first-seen order |
| Grouping.GroupsPartition | blender_to_dotbim.py:62-68 | taken together, the groups' objects are a permutation of the exportable objects |
| Grouping.SkippedObjectsIgnored | blender_to_dotbim.py:62-64 | objects of other types do not affect the grouping |
| Grouping.MembersFirstSeen | blender_to_dotbim.py:62-69 | a key has members exactly when it is seen somewhere in the input |
| Grouping.OwnKeyMembersAtMostOne | blender_to_dotbim.py:65-66 | with distinct object identities, at most one object is filed under an object key |
| Grouping.GroupOfKey | blender_to_dotbim.py:66-68 | every key that some exportable object has names a group, and that group's objects are its members |
| Grouping.OwnMeshIsSingleton | blender_to_dotbim.py:65-66 | an object with modifiers or a non-unit scale is alone in its group, even if others share its data |
| Grouping.SharedDataSharesGroup | blender_to_dotbim.py:67-68 | two exportable objects without modifiers and with unit scale that use the same data block land in one group, in input order |
| Labels.TrailingDigits | blender_to_dotbim.py:102 | the length of the run of digits ending the string, with a non-digit before it |
| Labels.StripNumericSuffix | blender_to_dotbim.py:101-104 | the label is a prefix of the name |
| Labels.MatchPosition | blender_to_dotbim.py:102 | the pattern can match only at the dot before the trailing run of digits |
| Labels.StripAgreesWithSearch | blender_to_dotbim.py:102-104 | the name is unchanged exactly when the pattern matches nowhere; otherwise it is cut at the only match |
| Labels.StripUndoesSuffix | blender_to_dotbim.py:101-104 | "base.digits" becomes "base" for every base and every non-empty run of digits |
| Labels.StripUndoesSuffixBeforeNewline | blender_to_dotbim.py:102-104 | "base.digits" followed by a newline also becomes "base" |
| Labels.StripKeepsPlainName | blender_to_dotbim.py:102-103 | a name not ending in a dot and digits is kept unchanged |
| Labels.StripExamples | blender_to_dotbim.py:101-104 | "Wall.003" → "Wall", "Wall.001.002" → "Wall.001", "Wall" and "Wall." unchanged |
| Info.UiProps | blender_to_dotbim.py:35-41 | a property is kept exactly when it is one of the object's properties and not a runtime property |
| Info.UiPropsAppend | blender_to_dotbim.py:38-41 | filtering preserves order (it distributes over concatenation) |
| Info.InfoMap | blender_to_dotbim.py:87-89 | reference definition of the info map: "Name" first, then each property in turn; characterised by `Info.InfoKeys`, `Info.InfoLastWriteWins`, `Info.InfoKeepsName` and `Info.ObjectInfo` |
| Info.BuildInfo | blender_to_dotbim.py:87-89 | the loop builds the info map of the object's name and its filtered properties |
| Info.InfoKeys | blender_to_dotbim.py:87-89 | the keys are "Name" and the properties' keys |
| Info.InfoLastWriteWins | blender_to_dotbim.py:88-89 | a key holds the text of its last property |
| Info.InfoKeepsName | blender_to_dotbim.py:87-89 | without a "Name" property, "Name" holds the object's name |
| Info.ObjectInfo | blender_to_dotbim.py:87-89 | a key is present exactly when it is "Name" or a non-runtime property's key; runtime properties other than "Name" are absent |
| FaceColors.Flatten | blender_to_dotbim.py:49-50 | four channels per colour |
| FaceColors.FlattenAt | blender_to_dotbim.py:49-50 | entry 4k+j is channel j of colour k |
| FaceColors.Rows | blender_to_dotbim.py:51 | `reshape(-1, 4)` gives a quarter as many rows |
| FaceColors.RowsOfFlatten | blender_to_dotbim.py:51 | reshaping the flat buffer gives the colours back |
| FaceColors.EveryThird | blender_to_dotbim.py:51 | `[0::3]` has ⌈n/3⌉ entries, entry k being row 3k |
| FaceColors.ReduceCorners | blender_to_dotbim.py:49-51 | reference definition of flatten, reshape and `[0::3]`; characterised by `FaceColors.ReduceCornersSpec` |
| FaceColors.ReduceCornersSpec | blender_to_dotbim.py:49-52 | with 3T corner colours, the result has 4T entries and triangle k has the colour of corner 3k |
| FaceColors.LayerFaceColors | blender_to_dotbim.py:44-52 | no colour layers gives nothing; a present layer gives its reduced colours; otherwise the lookup fails with that layer name |
| Meshes.ScaleInPlace | blender_to_dotbim.py:22-24 | the buffer afterwards is the old buffer with entry k multiplied by the scale of axis k mod 3 |
| Meshes.ScaleAxis | blender_to_dotbim.py:23-24 | one slice update multiplies every third entry, starting at the axis, by the factor and leaves all other entries unchanged |
| Meshes.AxisOfScaled | blender_to_dotbim.py:23-24 | scaling a vertex scales each of its axes |
| Meshes.ScaledIsPerVertex | blender_to_dotbim.py:20-24 | scaling the flat buffer axis by axis is scaling every vertex component-wise |
| Meshes.FaceColorsFor | blender_to_dotbim.py:30 | with no layer name (`None` or `""`) there are no face colours |
| Meshes.IndexBuffer | blender_to_dotbim.py:26-28 | three entries per triangle, corner c of triangle k at entry 3k+c |
| Meshes.Convert | blender_to_dotbim.py:19-32 | reference definition of one mesh conversion; characterised by `Meshes.ConvertOutcome`, `Meshes.ConvertedMeshValid` and `Meshes.ConvertedColorsAligned`, and computed by `Meshes.ConvertMesh` |
| Meshes.ConvertMesh | blender_to_dotbim.py:19-32 | the conversion method computes `Convert` |
| Meshes.ConvertOutcome | blender_to_dotbim.py:19-32 | it fails exactly when a named layer is absent from a mesh that has colour layers, with that layer's name; otherwise the mesh id is the group index and the coordinates are the scaled vertices |
| Meshes.ConvertedMeshValid | blender_to_dotbim.py:20-28 | for a well-formed mesh: three coordinates per vertex; exactly three indices per triangle, corner c of triangle k at entry 3k+c; every index names a vertex of the coordinate buffer |
| Meshes.ConvertedColorsAligned | blender_to_dotbim.py:30 | for a well-formed mesh, face colours have 4 entries per triangle, triangle k coloured as its corner 3k |
| Elements.Truncate | blender_to_dotbim.py:83 | `int()` truncates toward zero |
| Elements.ChannelByteRange | blender_to_dotbim.py:82-83 | channels in [0, 1] give 0..255; 1.0 gives 255 and 0.999 gives 254 |
| Elements.TypeLabel | blender_to_dotbim.py:97-104 | collection mode: the first collection's name, failing without a collection; any other mode: a prefix of the object's name |
| Elements.ElementFor | blender_to_dotbim.py:81-116 | reference definition of one element; characterised by `Elements.ElementForSpec` and computed by `Elements.BuildElement` |
| Elements.BuildElement | blender_to_dotbim.py:81-118 | the element-building steps compute `ElementFor` |
| Elements.ElementForSpec | blender_to_dotbim.py:81-116 | an element fails exactly for an object without a collection in collection mode; otherwise it carries the given mesh id and face colours, the object's placement and colour, its label, and the info map `InfoMap` of its name and non-runtime properties (so "Name" and every such key are present) |
| Export.ElementForMesh | blender_to_dotbim.py:107-115 | an element records the mesh id and face colours it is given |
| Export.GroupElements | blender_to_dotbim.py:81-118 | reference definition of the elements of one group, the first failure aborting; characterised by `Export.GroupElementsOk`, `Export.GroupElementsLength`, `Export.GroupElementsAt` and `Export.GroupElementsError` |
| Export.ExportGroups | blender_to_dotbim.py:69-118 | reference definition of the meshes and elements of the groups; characterised by the `Export.ExportGroups*` lemmas below |
| Export.Export | blender_to_dotbim.py:55-121 | reference definition of the whole export; characterised by `Export.ExportDocument`, `Export.ExportElements`, `Export.ExportElementsFromObjects`, `Export.EveryExportableObjectHasElement`, `Export.ExportFailure` and `Export.ExportBuffersValid`, and computed by `Export.ExportObjects` |
| Export.GroupElementsOk | blender_to_dotbim.py:81-118 | a group's elements are built exactly when every object of the group can be labelled |
| Export.GroupElementsLength | blender_to_dotbim.py:81-118 | one element per object of the group |
| Export.GroupElementsAt | blender_to_dotbim.py:81-118 | element j of a group is built from the group's object j |
| Export.GroupElementsError | blender_to_dotbim.py:97-98 | a failing group reports an object of the group that has no collection |
| Export.BuildGroupElements | blender_to_dotbim.py:81-118 | the inner loop computes the group's elements, the first failure aborting |
| Export.ExportObjects | blender_to_dotbim.py:55-121 | the exporter computes the document `Export` describes, or its failure |
| Export.ExportGroupsLengths | blender_to_dotbim.py:69-118 | one mesh per group, and one element per object of the groups |
| Export.ExportGroupsMeshAt | blender_to_dotbim.py:69-79 | mesh i is converted from group i's first object and has id i |
| Export.ExportGroupsElementFrom | blender_to_dotbim.py:81-118 | element k is built from the k-th object of the groups, taken group by group, and that object is in the group its mesh id names |
| Export.ExportGroupsElementMesh | blender_to_dotbim.py:73-115 | every element names an existing group, and its face colours are that group's |
| Export.ExportGroupsOrdered | blender_to_dotbim.py:69-118 | elements appear group by group: mesh ids never decrease |
| Export.ExportGroupsOk | blender_to_dotbim.py:69-104 | the export of the groups succeeds exactly when no group's first object misses the layer and every object can be labelled |
| Export.ExportGroupsError | blender_to_dotbim.py:69-104 | a failure reports the missing layer or an object without a collection |
| Export.ExportDocument | blender_to_dotbim.py:120-121 | version "1.0.0"; author and date as info; one mesh per group with ids 0..N-1; one element per exportable object |
| Export.ExportElements | blender_to_dotbim.py:69-118 | every element's mesh id indexes a mesh; ids never decrease; elements of one mesh share face colours, which were converted with the mesh from the group's first object |
| Export.ExportElementsFromObjects | blender_to_dotbim.py:62-118 | every element is built from an exportable object of the scene that belongs to the element's group |
| Export.EveryExportableObjectHasElement | blender_to_dotbim.py:62-118 | every exportable object has an element built from it, in the group of its key |
| Export.ExportFailure | blender_to_dotbim.py:69-104 | an export fails exactly when a group's first object lacks the requested layer (while having colour layers) or, in collection mode, an exportable object has no collection; the failure names that layer or that object |
| Export.ExportBuffersValid | blender_to_dotbim.py:69-118 | for well-formed meshes: every mesh has three coordinates per vertex and three indices per triangle of an exportable object's mesh, and every index is below the vertex count; every element has four face-colour entries per triangle |

## Left out

- The default arguments of `export_objects` (line 55: author "John Doe",
  type source "NAME", colour layer "Col") are not modelled. `Export` and
  `Export.ExportObjects` take every one of them explicitly.
- Host calls are not modelled. Snapshot fields stand in for the results
  of `evaluated_get(depsgraph).to_mesh()`, bmesh triangulation
  (`triangulate_mesh`) and `foreach_get`. The snapshot is the evaluated,
  triangulated mesh. Both its coordinates and its corner colours are read
  from that mesh state.
- Decomposing the world matrix (`to_scale`, `to_quaternion`,
  `to_translation`) is not modelled. Its three results are snapshot fields.
  Reconstructing the transform from them is therefore not stated.
- Python floats are modelled as exact reals. IEEE rounding in the scaling
  and in `c * 255` is not captured.
- The element GUID (`uuid.uuid4()`) is not part of the element. It is
  random and nothing else depends on it.
- `date.today().strftime(...)` is not modelled. The date text is a
  parameter of the export.
- `str()` of custom property values is not modelled. Each property
  carries its text already rendered.
- The runtime-property check through `bl_rna` is not modelled. Each
  object carries the set of runtime property identifiers.
- Saving the file (`file.save`, the dotbimpy writer) is not modelled.
  The model stops at the assembled document.
- Object identity and data-block identity are natural-number ids. The
  dictionary keyed by objects and data blocks is an ordered list of groups.
- The add-on's UI module (`__init__.py`) is not part of this model. This
  covers the operator, its options, the choice between selected and scene
  objects, and passing no layer name when face colours are off.
- `__main__` (export of the selected objects to `House.bim`) is not
  modelled.
