/** The export pipeline: group the objects, build one mesh per group from
    the group's first object, then one element per object of the group, and
    assemble the document with its file-level info. An exception anywhere
    (a missing colour layer, an object without a collection in collection
    mode) aborts the whole export, so nothing is written. */
module Export {
  import opened Wrappers
  import opened Scene
  import opened Grouping
  import opened Meshes
  import opened Elements

  datatype Document = Document(
    version: string,
    meshes: seq<MeshRecord>,
    elements: seq<Element>,
    info: map<string, string>)

  const FormatVersion := "1.0.0"

  ghost predicate NonEmptyGroups(gs: seq<Group>) {
    forall i :: 0 <= i < |gs| ==> gs[i].users != []
  }

  /** The mesh of group `i`, converted from its first object. */
  function GroupMesh(gs: seq<Group>, i: nat, layer: Option<string>)
    : Result<(MeshRecord, Option<seq<real>>), ExportError>
    requires i < |gs| && gs[i].users != []
  {
    var base := gs[i].users[0];
    Convert(base.evaluated, i, base.worldScale, layer)
  }

  /** The elements of one group's objects, in order; the first failure
      aborts. */
  function GroupElements(us: seq<SceneObject>, meshId: nat, fc: Option<seq<real>>, typeFrom: string)
    : Result<seq<Element>, ExportError>
    decreases |us|
  {
    if us == [] then Ok([])
    else
      match GroupElements(us[..|us| - 1], meshId, fc, typeFrom)
      case Err(e) => Err(e)
      case Ok(es) =>
        match ElementFor(us[|us| - 1], meshId, fc, typeFrom)
        case Err(e) => Err(e)
        case Ok(el) => Ok(es + [el])
  }

  /** The meshes and elements of a sequence of groups, group by group; the
      first failure aborts. */
  function ExportGroups(gs: seq<Group>, typeFrom: string, layer: Option<string>)
    : Result<(seq<MeshRecord>, seq<Element>), ExportError>
    requires NonEmptyGroups(gs)
    decreases |gs|
  {
    if gs == [] then Ok(([], []))
    else
      var i := |gs| - 1;
      match ExportGroups(gs[..i], typeFrom, layer)
      case Err(e) => Err(e)
      case Ok((ms, es)) =>
        match GroupMesh(gs, i, layer)
        case Err(e) => Err(e)
        case Ok((mesh, fc)) =>
          match GroupElements(gs[i].users, i, fc, typeFrom)
          case Err(e) => Err(e)
          case Ok(ges) => Ok((ms + [mesh], es + ges))
  }

  /** The document an export produces, or why it fails. */
  function Export(objs: seq<SceneObject>, author: string, today: string, typeFrom: string, layer: Option<string>)
    : Result<Document, ExportError>
  {
    GroupsNonEmpty(objs);
    match ExportGroups(GroupsOf(objs), typeFrom, layer)
    case Err(e) => Err(e)
    case Ok((ms, es)) => Ok(Document(FormatVersion, ms, es, map["Author" := author, "Date" := today]))
  }

  /** The inner loop of the exporter: the elements of one group's objects. */
  method BuildGroupElements(users: seq<SceneObject>, meshId: nat, fc: Option<seq<real>>, typeFrom: string)
    returns (r: Result<seq<Element>, ExportError>)
    ensures r == GroupElements(users, meshId, fc, typeFrom)
  {
    var elements: seq<Element> := [];
    for j := 0 to |users|
      invariant GroupElements(users[..j], meshId, fc, typeFrom) == Ok(elements)
    {
      assert users[..j + 1][..j] == users[..j];
      var e := BuildElement(users[j], meshId, fc, typeFrom);
      if e.Err? {
        GroupElementsErrSticks(users, j + 1, meshId, fc, typeFrom);
        assert users[..|users|] == users;
        return Err(e.error);
      }
      elements := elements + [e.value];
    }
    assert users[..|users|] == users;
    r := Ok(elements);
  }

  /** The exporter: groups the objects, then for each group converts the
      first object's mesh and builds the elements of all its objects. */
  method ExportObjects(objs: seq<SceneObject>, author: string, today: string, typeFrom: string, layer: Option<string>)
    returns (r: Result<Document, ExportError>)
    ensures r == Export(objs, author, today, typeFrom, layer)
  {
    var gs := GroupObjects(objs);
    GroupsNonEmpty(objs);
    var meshes: seq<MeshRecord> := [];
    var elements: seq<Element> := [];
    for i := 0 to |gs|
      invariant ExportGroups(gs[..i], typeFrom, layer) == Ok((meshes, elements))
    {
      ExportGroupsStep(gs, i, typeFrom, layer, meshes, elements);
      var base := gs[i].users[0];
      var conv := ConvertMesh(base.evaluated, i, base.worldScale, layer);
      if conv.Err? {
        ExportGroupsErrSticks(gs, i + 1, typeFrom, layer);
        assert gs[..|gs|] == gs;
        return Err(conv.error);
      }
      var (mesh, fc) := conv.value;
      meshes := meshes + [mesh];
      var built := BuildGroupElements(gs[i].users, i, fc, typeFrom);
      if built.Err? {
        ExportGroupsErrSticks(gs, i + 1, typeFrom, layer);
        assert gs[..|gs|] == gs;
        return Err(built.error);
      }
      elements := elements + built.value;
    }
    assert gs[..|gs|] == gs;
    r := Ok(Document(FormatVersion, meshes, elements, map["Author" := author, "Date" := today]));
  }

  /** One turn of the exporter's loop over the groups. */
  lemma ExportGroupsStep(gs: seq<Group>, i: nat, typeFrom: string, layer: Option<string>,
                         ms: seq<MeshRecord>, es: seq<Element>)
    requires NonEmptyGroups(gs) && i < |gs|
    requires ExportGroups(gs[..i], typeFrom, layer) == Ok((ms, es))
    ensures NonEmptyGroups(gs[..i + 1])
    ensures GroupMesh(gs, i, layer).Err? ==>
      ExportGroups(gs[..i + 1], typeFrom, layer) == Err(GroupMesh(gs, i, layer).error)
    ensures GroupMesh(gs, i, layer).Ok? ==>
      var (mesh, fc) := GroupMesh(gs, i, layer).value;
      ExportGroups(gs[..i + 1], typeFrom, layer) ==
        match GroupElements(gs[i].users, i, fc, typeFrom)
        case Err(e) => Err(e)
        case Ok(ges) => Ok((ms + [mesh], es + ges))
  {
    var p := gs[..i + 1];
    assert p[..i] == gs[..i];
    assert p[i] == gs[i];
    assert GroupMesh(p, i, layer) == GroupMesh(gs, i, layer);
  }

  lemma GroupsNonEmpty(objs: seq<SceneObject>)
    ensures NonEmptyGroups(GroupsOf(objs))
  {
    GroupsOfSpec(objs);
  }

  // ---------------------------------------------------------------------
  // Failures propagate

  lemma {:induction false} GroupElementsErrSticks(us: seq<SceneObject>, n: nat, meshId: nat, fc: Option<seq<real>>, typeFrom: string)
    requires n <= |us|
    requires GroupElements(us[..n], meshId, fc, typeFrom).Err?
    ensures GroupElements(us, meshId, fc, typeFrom) == GroupElements(us[..n], meshId, fc, typeFrom)
    decreases |us| - n
  {
    if n < |us| {
      var p := us[..|us| - 1];
      assert p[..n] == us[..n];
      GroupElementsErrSticks(p, n, meshId, fc, typeFrom);
    } else {
      assert us[..n] == us;
    }
  }

  lemma {:induction false} ExportGroupsErrSticks(gs: seq<Group>, n: nat, typeFrom: string, layer: Option<string>)
    requires NonEmptyGroups(gs)
    requires n <= |gs|
    requires ExportGroups(gs[..n], typeFrom, layer).Err?
    ensures ExportGroups(gs, typeFrom, layer) == ExportGroups(gs[..n], typeFrom, layer)
    decreases |gs| - n
  {
    if n < |gs| {
      var p := gs[..|gs| - 1];
      assert p[..n] == gs[..n];
      ExportGroupsErrSticks(p, n, typeFrom, layer);
    } else {
      assert gs[..n] == gs;
    }
  }

  // ---------------------------------------------------------------------
  // What a successful export contains

  /** Whether an object can be given a type label in the given mode. */
  predicate Labelled(o: SceneObject, typeFrom: string) {
    typeFrom != "COLLECTION" || |o.collections| > 0
  }

  /** Building an element fails exactly when its object cannot be labelled. */
  lemma ElementForOk(o: SceneObject, meshId: nat, fc: Option<seq<real>>, typeFrom: string)
    ensures ElementFor(o, meshId, fc, typeFrom).Ok? <==> Labelled(o, typeFrom)
  {
    ElementForSpec(o, meshId, fc, typeFrom);
  }

  /** An element records the mesh id and face colours it was given. */
  lemma ElementForMesh(o: SceneObject, meshId: nat, fc: Option<seq<real>>, typeFrom: string)
    requires ElementFor(o, meshId, fc, typeFrom).Ok?
    ensures ElementFor(o, meshId, fc, typeFrom).value.meshId == meshId
    ensures ElementFor(o, meshId, fc, typeFrom).value.faceColors == fc
  {
  }

  /** A group's elements are built exactly when every object of the group
      can be labelled. */
  lemma {:induction false} GroupElementsOk(us: seq<SceneObject>, meshId: nat, fc: Option<seq<real>>, typeFrom: string)
    ensures GroupElements(us, meshId, fc, typeFrom).Ok? <==> AllLabelled(us, typeFrom)
    decreases |us|
  {
    if us != [] {
      var p := us[..|us| - 1];
      var o := us[|us| - 1];
      GroupElementsOk(p, meshId, fc, typeFrom);
      ElementForOk(o, meshId, fc, typeFrom);
      assert us == p + [o];
      AllLabelledAppend(p, [o], typeFrom);
    }
  }

  /** A group's elements: one per object, in order. */
  lemma {:induction false} GroupElementsLength(us: seq<SceneObject>, meshId: nat, fc: Option<seq<real>>, typeFrom: string)
    requires GroupElements(us, meshId, fc, typeFrom).Ok?
    ensures |GroupElements(us, meshId, fc, typeFrom).value| == |us|
    decreases |us|
  {
    if us != [] {
      GroupElementsLength(us[..|us| - 1], meshId, fc, typeFrom);
    }
  }

  /** The last turn of `GroupElements`, spelled out. */
  lemma GroupElementsLast(us: seq<SceneObject>, meshId: nat, fc: Option<seq<real>>, typeFrom: string)
    requires us != [] && GroupElements(us, meshId, fc, typeFrom).Ok?
    ensures GroupElements(us[..|us| - 1], meshId, fc, typeFrom).Ok?
    ensures ElementFor(us[|us| - 1], meshId, fc, typeFrom).Ok?
    ensures GroupElements(us, meshId, fc, typeFrom).value
         == GroupElements(us[..|us| - 1], meshId, fc, typeFrom).value + [ElementFor(us[|us| - 1], meshId, fc, typeFrom).value]
  {
  }

  /** The `j`-th element of a group is built from the group's `j`-th object. */
  lemma {:induction false} GroupElementsAt(us: seq<SceneObject>, meshId: nat, fc: Option<seq<real>>, typeFrom: string, j: nat)
    requires GroupElements(us, meshId, fc, typeFrom).Ok? && j < |us|
    ensures j < |GroupElements(us, meshId, fc, typeFrom).value|
    ensures ElementFor(us[j], meshId, fc, typeFrom) == Ok(GroupElements(us, meshId, fc, typeFrom).value[j])
    decreases |us|
  {
    GroupElementsLast(us, meshId, fc, typeFrom);
    if j < |us| - 1 {
      GroupElementsAt(us[..|us| - 1], meshId, fc, typeFrom, j);
      EarlierGroupElementAt(us, meshId, fc, typeFrom, j);
    } else {
      GroupElementsLength(us[..|us| - 1], meshId, fc, typeFrom);
      SeqRight(GroupElements(us, meshId, fc, typeFrom).value, GroupElements(us[..|us| - 1], meshId, fc, typeFrom).value,
               [ElementFor(us[|us| - 1], meshId, fc, typeFrom).value], 0);
    }
  }

  /** Carries `GroupElementsAt` over from all objects but the last to all
      of them. */
  lemma EarlierGroupElementAt(us: seq<SceneObject>, meshId: nat, fc: Option<seq<real>>, typeFrom: string, j: nat)
    requires GroupElements(us, meshId, fc, typeFrom).Ok? && j < |us| - 1
    requires GroupElements(us[..|us| - 1], meshId, fc, typeFrom).Ok?
    requires j < |GroupElements(us[..|us| - 1], meshId, fc, typeFrom).value|
    requires ElementFor(us[..|us| - 1][j], meshId, fc, typeFrom) == Ok(GroupElements(us[..|us| - 1], meshId, fc, typeFrom).value[j])
    ensures j < |GroupElements(us, meshId, fc, typeFrom).value|
    ensures ElementFor(us[j], meshId, fc, typeFrom) == Ok(GroupElements(us, meshId, fc, typeFrom).value[j])
  {
    GroupElementsLast(us, meshId, fc, typeFrom);
    SeqLeft(GroupElements(us, meshId, fc, typeFrom).value, GroupElements(us[..|us| - 1], meshId, fc, typeFrom).value,
            [ElementFor(us[|us| - 1], meshId, fc, typeFrom).value], j);
    assert us[..|us| - 1][j] == us[j];
  }

  /** The last turn of `ExportGroups`, spelled out. */
  lemma ExportGroupsLast(gs: seq<Group>, typeFrom: string, layer: Option<string>)
    requires NonEmptyGroups(gs) && gs != []
    requires ExportGroups(gs, typeFrom, layer).Ok?
    ensures NonEmptyGroups(gs[..|gs| - 1])
    ensures ExportGroups(gs[..|gs| - 1], typeFrom, layer).Ok?
    ensures GroupMesh(gs, |gs| - 1, layer).Ok?
    ensures GroupElements(gs[|gs| - 1].users, |gs| - 1, GroupMesh(gs, |gs| - 1, layer).value.1, typeFrom).Ok?
    ensures ExportGroups(gs, typeFrom, layer).value.0 ==
      ExportGroups(gs[..|gs| - 1], typeFrom, layer).value.0 + [GroupMesh(gs, |gs| - 1, layer).value.0]
    ensures ExportGroups(gs, typeFrom, layer).value.1 ==
      ExportGroups(gs[..|gs| - 1], typeFrom, layer).value.1
      + GroupElements(gs[|gs| - 1].users, |gs| - 1, GroupMesh(gs, |gs| - 1, layer).value.1, typeFrom).value
  {
  }

  /** A group's mesh does not depend on the groups after it. */
  lemma GroupMeshPrefix(gs: seq<Group>, n: nat, i: nat, layer: Option<string>)
    requires i < n <= |gs| && gs[i].users != []
    ensures gs[..n][i].users != []
    ensures GroupMesh(gs[..n], i, layer) == GroupMesh(gs, i, layer)
  {
    assert gs[..n][i] == gs[i];
  }

  /** One mesh per group, and one element per object of the groups. */
  lemma {:induction false} ExportGroupsLengths(gs: seq<Group>, typeFrom: string, layer: Option<string>)
    requires NonEmptyGroups(gs)
    requires ExportGroups(gs, typeFrom, layer).Ok?
    ensures |ExportGroups(gs, typeFrom, layer).value.0| == |gs|
    ensures |ExportGroups(gs, typeFrom, layer).value.1| == |AllUsers(gs)|
    decreases |gs|
  {
    if gs != [] {
      var n := |gs| - 1;
      ExportGroupsLast(gs, typeFrom, layer);
      ExportGroupsLengths(gs[..n], typeFrom, layer);
      GroupElementsLength(gs[n].users, n, GroupMesh(gs, n, layer).value.1, typeFrom);
    }
  }

  /** The `i`-th mesh is converted from the first object of group `i` and
      has id `i`. */
  lemma {:induction false} ExportGroupsMeshAt(gs: seq<Group>, typeFrom: string, layer: Option<string>, i: nat)
    requires NonEmptyGroups(gs) && i < |gs|
    requires ExportGroups(gs, typeFrom, layer).Ok?
    ensures i < |ExportGroups(gs, typeFrom, layer).value.0|
    ensures GroupMesh(gs, i, layer).Ok?
    ensures GroupMesh(gs, i, layer).value.0 == ExportGroups(gs, typeFrom, layer).value.0[i]
    ensures ExportGroups(gs, typeFrom, layer).value.0[i].meshId == i
    decreases |gs|
  {
    if i < |gs| - 1 {
      ExportGroupsLast(gs, typeFrom, layer);
      ExportGroupsMeshAt(gs[..|gs| - 1], typeFrom, layer, i);
      EarlierMeshAt(gs, typeFrom, layer, i);
    } else {
      LastMeshAt(gs, typeFrom, layer);
    }
  }

  /** Carries `ExportGroupsMeshAt` over from all groups but the last to all
      of them. */
  lemma EarlierMeshAt(gs: seq<Group>, typeFrom: string, layer: Option<string>, i: nat)
    requires NonEmptyGroups(gs) && i < |gs| - 1
    requires ExportGroups(gs, typeFrom, layer).Ok?
    requires NonEmptyGroups(gs[..|gs| - 1]) && ExportGroups(gs[..|gs| - 1], typeFrom, layer).Ok?
    requires i < |ExportGroups(gs[..|gs| - 1], typeFrom, layer).value.0|
    requires GroupMesh(gs[..|gs| - 1], i, layer).Ok?
    requires GroupMesh(gs[..|gs| - 1], i, layer).value.0 == ExportGroups(gs[..|gs| - 1], typeFrom, layer).value.0[i]
    requires ExportGroups(gs[..|gs| - 1], typeFrom, layer).value.0[i].meshId == i
    ensures i < |ExportGroups(gs, typeFrom, layer).value.0|
    ensures GroupMesh(gs, i, layer).Ok?
    ensures GroupMesh(gs, i, layer).value.0 == ExportGroups(gs, typeFrom, layer).value.0[i]
    ensures ExportGroups(gs, typeFrom, layer).value.0[i].meshId == i
  {
    var n := |gs| - 1;
    ExportGroupsLast(gs, typeFrom, layer);
    GroupMeshPrefix(gs, n, i, layer);
    SeqLeft(ExportGroups(gs, typeFrom, layer).value.0, ExportGroups(gs[..n], typeFrom, layer).value.0,
            [GroupMesh(gs, n, layer).value.0], i);
  }

  /** The last group's mesh is the last mesh. */
  lemma LastMeshAt(gs: seq<Group>, typeFrom: string, layer: Option<string>)
    requires NonEmptyGroups(gs) && gs != []
    requires ExportGroups(gs, typeFrom, layer).Ok?
    ensures |gs| - 1 < |ExportGroups(gs, typeFrom, layer).value.0|
    ensures GroupMesh(gs, |gs| - 1, layer).Ok?
    ensures GroupMesh(gs, |gs| - 1, layer).value.0 == ExportGroups(gs, typeFrom, layer).value.0[|gs| - 1]
    ensures ExportGroups(gs, typeFrom, layer).value.0[|gs| - 1].meshId == |gs| - 1
  {
    var n := |gs| - 1;
    ExportGroupsLast(gs, typeFrom, layer);
    ExportGroupsLengths(gs[..n], typeFrom, layer);
    var base := gs[n].users[0];
    ConvertOutcome(base.evaluated, n, base.worldScale, layer);
    SeqRight(ExportGroups(gs, typeFrom, layer).value.0, ExportGroups(gs[..n], typeFrom, layer).value.0,
             [GroupMesh(gs, n, layer).value.0], 0);
  }

  /** Element `k` is built from the `k`-th object of the groups, taken
      group by group, and that object belongs to the group its mesh id
      names. */
  lemma {:induction false} ExportGroupsElementFrom(gs: seq<Group>, typeFrom: string, layer: Option<string>, k: nat)
    requires NonEmptyGroups(gs)
    requires ExportGroups(gs, typeFrom, layer).Ok?
    requires k < |ExportGroups(gs, typeFrom, layer).value.1|
    ensures k < |AllUsers(gs)|
    ensures ExportGroups(gs, typeFrom, layer).value.1[k].meshId < |gs|
    ensures AllUsers(gs)[k] in gs[ExportGroups(gs, typeFrom, layer).value.1[k].meshId].users
    ensures ElementFor(AllUsers(gs)[k], ExportGroups(gs, typeFrom, layer).value.1[k].meshId,
                       ExportGroups(gs, typeFrom, layer).value.1[k].faceColors, typeFrom)
         == Ok(ExportGroups(gs, typeFrom, layer).value.1[k])
    decreases |gs|
  {
    var n := |gs| - 1;
    var p := gs[..n];
    ExportGroupsLast(gs, typeFrom, layer);
    ExportGroupsLengths(p, typeFrom, layer);
    var esp := ExportGroups(p, typeFrom, layer).value.1;
    if k < |esp| {
      ExportGroupsElementFrom(p, typeFrom, layer, k);
      EarlierElementFrom(gs, typeFrom, layer, k);
    } else {
      LastElementFrom(gs, typeFrom, layer, k);
    }
  }

  /** Carries `ExportGroupsElementFrom` for an element of an earlier group
      over from the groups before the last to all of them. */
  lemma EarlierElementFrom(gs: seq<Group>, typeFrom: string, layer: Option<string>, k: nat)
    requires NonEmptyGroups(gs) && gs != []
    requires ExportGroups(gs, typeFrom, layer).Ok?
    requires NonEmptyGroups(gs[..|gs| - 1]) && ExportGroups(gs[..|gs| - 1], typeFrom, layer).Ok?
    requires k < |ExportGroups(gs[..|gs| - 1], typeFrom, layer).value.1|
    requires k < |AllUsers(gs[..|gs| - 1])|
    requires ExportGroups(gs[..|gs| - 1], typeFrom, layer).value.1[k].meshId < |gs| - 1
    requires AllUsers(gs[..|gs| - 1])[k] in gs[..|gs| - 1][ExportGroups(gs[..|gs| - 1], typeFrom, layer).value.1[k].meshId].users
    requires ElementFor(AllUsers(gs[..|gs| - 1])[k], ExportGroups(gs[..|gs| - 1], typeFrom, layer).value.1[k].meshId,
                        ExportGroups(gs[..|gs| - 1], typeFrom, layer).value.1[k].faceColors, typeFrom)
          == Ok(ExportGroups(gs[..|gs| - 1], typeFrom, layer).value.1[k])
    ensures k < |ExportGroups(gs, typeFrom, layer).value.1|
    ensures k < |AllUsers(gs)|
    ensures ExportGroups(gs, typeFrom, layer).value.1[k].meshId < |gs|
    ensures AllUsers(gs)[k] in gs[ExportGroups(gs, typeFrom, layer).value.1[k].meshId].users
    ensures ElementFor(AllUsers(gs)[k], ExportGroups(gs, typeFrom, layer).value.1[k].meshId,
                       ExportGroups(gs, typeFrom, layer).value.1[k].faceColors, typeFrom)
         == Ok(ExportGroups(gs, typeFrom, layer).value.1[k])
  {
    var n := |gs| - 1;
    var p := gs[..n];
    ExportGroupsLast(gs, typeFrom, layer);
    var fc := GroupMesh(gs, n, layer).value.1;
    var es := ExportGroups(gs, typeFrom, layer).value.1;
    var esp := ExportGroups(p, typeFrom, layer).value.1;
    SeqLeft(es, esp, GroupElements(gs[n].users, n, fc, typeFrom).value, k);
    AllUsersLast(gs);
    SeqLeft(AllUsers(gs), AllUsers(p), gs[n].users, k);
    assert p[esp[k].meshId] == gs[esp[k].meshId];
  }

  /** `ExportGroupsElementFrom` for an element of the last group. */
  lemma LastElementFrom(gs: seq<Group>, typeFrom: string, layer: Option<string>, k: nat)
    requires NonEmptyGroups(gs) && gs != []
    requires ExportGroups(gs, typeFrom, layer).Ok?
    requires NonEmptyGroups(gs[..|gs| - 1]) && ExportGroups(gs[..|gs| - 1], typeFrom, layer).Ok?
    requires |ExportGroups(gs[..|gs| - 1], typeFrom, layer).value.1| == |AllUsers(gs[..|gs| - 1])|
    requires |ExportGroups(gs[..|gs| - 1], typeFrom, layer).value.1| <= k < |ExportGroups(gs, typeFrom, layer).value.1|
    ensures k < |AllUsers(gs)|
    ensures ExportGroups(gs, typeFrom, layer).value.1[k].meshId < |gs|
    ensures AllUsers(gs)[k] in gs[ExportGroups(gs, typeFrom, layer).value.1[k].meshId].users
    ensures ElementFor(AllUsers(gs)[k], ExportGroups(gs, typeFrom, layer).value.1[k].meshId,
                       ExportGroups(gs, typeFrom, layer).value.1[k].faceColors, typeFrom)
         == Ok(ExportGroups(gs, typeFrom, layer).value.1[k])
  {
    var n := |gs| - 1;
    var p := gs[..n];
    ExportGroupsLast(gs, typeFrom, layer);
    var fc := GroupMesh(gs, n, layer).value.1;
    var es := ExportGroups(gs, typeFrom, layer).value.1;
    var esp := ExportGroups(p, typeFrom, layer).value.1;
    var ges := GroupElements(gs[n].users, n, fc, typeFrom).value;
    var j := k - |esp|;
    GroupElementsLength(gs[n].users, n, fc, typeFrom);
    GroupElementsAt(gs[n].users, n, fc, typeFrom, j);
    ElementForMesh(gs[n].users[j], n, fc, typeFrom);
    SeqRight(es, esp, ges, j);
    AllUsersLast(gs);
    SeqRight(AllUsers(gs), AllUsers(p), gs[n].users, j);
  }

  /** An entry of the left part of a concatenation. */
  lemma SeqLeft<T>(all: seq<T>, left: seq<T>, right: seq<T>, k: nat)
    requires all == left + right && k < |left|
    ensures k < |all| && all[k] == left[k]
  {
  }

  /** An entry of the right part of a concatenation. */
  lemma SeqRight<T>(all: seq<T>, left: seq<T>, right: seq<T>, j: nat)
    requires all == left + right && j < |right|
    ensures |left| + j < |all| && all[|left| + j] == right[j]
  {
  }

  /** The elements added by the last group carry its index and face
      colours. */
  lemma LastGroupElement(gs: seq<Group>, typeFrom: string, layer: Option<string>, k: nat)
    requires NonEmptyGroups(gs) && gs != []
    requires ExportGroups(gs, typeFrom, layer).Ok?
    requires |ExportGroups(gs[..|gs| - 1], typeFrom, layer).value.1| <= k < |ExportGroups(gs, typeFrom, layer).value.1|
    ensures GroupMesh(gs, |gs| - 1, layer).Ok?
    ensures ExportGroups(gs, typeFrom, layer).value.1[k].meshId == |gs| - 1
    ensures ExportGroups(gs, typeFrom, layer).value.1[k].faceColors == GroupMesh(gs, |gs| - 1, layer).value.1
  {
    var n := |gs| - 1;
    ExportGroupsLast(gs, typeFrom, layer);
    var esp := ExportGroups(gs[..n], typeFrom, layer).value.1;
    var fc := GroupMesh(gs, n, layer).value.1;
    var ges := GroupElements(gs[n].users, n, fc, typeFrom).value;
    var j := k - |esp|;
    GroupElementsLength(gs[n].users, n, fc, typeFrom);
    GroupElementMesh(gs[n].users, n, fc, typeFrom, j);
    SeqRight(ExportGroups(gs, typeFrom, layer).value.1, esp, ges, j);
    assert ges[j].meshId == n;
    assert ExportGroups(gs, typeFrom, layer).value.1[k] == ges[j];
  }

  /** Every element of a group carries the group's mesh id and face
      colours. */
  lemma GroupElementMesh(us: seq<SceneObject>, meshId: nat, fc: Option<seq<real>>, typeFrom: string, j: nat)
    requires GroupElements(us, meshId, fc, typeFrom).Ok? && j < |us|
    ensures j < |GroupElements(us, meshId, fc, typeFrom).value|
    ensures GroupElements(us, meshId, fc, typeFrom).value[j].meshId == meshId
    ensures GroupElements(us, meshId, fc, typeFrom).value[j].faceColors == fc
  {
    GroupElementsAt(us, meshId, fc, typeFrom, j);
    ElementForMesh(us[j], meshId, fc, typeFrom);
  }

  /** Every element names an existing group's mesh and carries the face
      colours computed once from that group's first object. */
  lemma {:induction false} ExportGroupsElementMesh(gs: seq<Group>, typeFrom: string, layer: Option<string>, k: nat)
    requires NonEmptyGroups(gs)
    requires ExportGroups(gs, typeFrom, layer).Ok?
    requires k < |ExportGroups(gs, typeFrom, layer).value.1|
    ensures ExportGroups(gs, typeFrom, layer).value.1[k].meshId < |gs|
    ensures GroupMesh(gs, ExportGroups(gs, typeFrom, layer).value.1[k].meshId, layer).Ok?
    ensures ExportGroups(gs, typeFrom, layer).value.1[k].faceColors
         == GroupMesh(gs, ExportGroups(gs, typeFrom, layer).value.1[k].meshId, layer).value.1
    decreases |gs|
  {
    var n := |gs| - 1;
    var p := gs[..n];
    ExportGroupsLast(gs, typeFrom, layer);
    var esp := ExportGroups(p, typeFrom, layer).value.1;
    if k < |esp| {
      ExportGroupsElementMesh(p, typeFrom, layer, k);
      var e := esp[k];
      GroupMeshPrefix(gs, n, e.meshId, layer);
      assert ExportGroups(gs, typeFrom, layer).value.1[k] == e;
    } else {
      LastGroupElement(gs, typeFrom, layer, k);
    }
  }

  /** Elements appear group by group: mesh ids never decrease. */
  lemma {:induction false} ExportGroupsOrdered(gs: seq<Group>, typeFrom: string, layer: Option<string>, k: nat, k': nat)
    requires NonEmptyGroups(gs)
    requires ExportGroups(gs, typeFrom, layer).Ok?
    requires k < k' < |ExportGroups(gs, typeFrom, layer).value.1|
    ensures ExportGroups(gs, typeFrom, layer).value.1[k].meshId <= ExportGroups(gs, typeFrom, layer).value.1[k'].meshId
    decreases |gs|
  {
    var n := |gs| - 1;
    var p := gs[..n];
    ExportGroupsLast(gs, typeFrom, layer);
    var esp := ExportGroups(p, typeFrom, layer).value.1;
    var es := ExportGroups(gs, typeFrom, layer).value.1;
    if k' < |esp| {
      ExportGroupsOrdered(p, typeFrom, layer, k, k');
      assert es[k] == esp[k] && es[k'] == esp[k'];
    } else {
      LastGroupElement(gs, typeFrom, layer, k');
      ExportGroupsElementMesh(gs, typeFrom, layer, k);
    }
  }

  // ---------------------------------------------------------------------
  // The document of an export

  /** The export in terms of the groups of the objects. */
  lemma ExportUnfold(objs: seq<SceneObject>, author: string, today: string, typeFrom: string, layer: Option<string>)
    ensures NonEmptyGroups(GroupsOf(objs))
    ensures Export(objs, author, today, typeFrom, layer).Ok? <==> ExportGroups(GroupsOf(objs), typeFrom, layer).Ok?
    ensures Export(objs, author, today, typeFrom, layer).Err? ==>
      Export(objs, author, today, typeFrom, layer).error == ExportGroups(GroupsOf(objs), typeFrom, layer).error
    ensures Export(objs, author, today, typeFrom, layer).Ok? ==>
      var doc := Export(objs, author, today, typeFrom, layer).value;
      doc.meshes == ExportGroups(GroupsOf(objs), typeFrom, layer).value.0
      && doc.elements == ExportGroups(GroupsOf(objs), typeFrom, layer).value.1
      && doc.version == FormatVersion
      && doc.info == map["Author" := author, "Date" := today]
  {
    GroupsNonEmpty(objs);
  }

  /** A successful export writes format version 1.0.0, the author and the
      date as file info, one mesh per group with the ids 0 .. N-1 in the
      order the groups' keys were first seen, and one element per
      exportable object. */
  lemma ExportDocument(objs: seq<SceneObject>, author: string, today: string, typeFrom: string, layer: Option<string>)
    requires Export(objs, author, today, typeFrom, layer).Ok?
    ensures var doc := Export(objs, author, today, typeFrom, layer).value;
      && doc.version == "1.0.0"
      && doc.info == map["Author" := author, "Date" := today]
      && |doc.meshes| == |GroupsOf(objs)|
      && (forall i :: 0 <= i < |doc.meshes| ==> doc.meshes[i].meshId == i)
      && |doc.elements| == |ExportableObjects(objs)|
  {
    ExportUnfold(objs, author, today, typeFrom, layer);
    var gs := GroupsOf(objs);
    ExportGroupsLengths(gs, typeFrom, layer);
    GroupsPartition(objs);
    forall i | 0 <= i < |gs| ensures ExportGroups(gs, typeFrom, layer).value.0[i].meshId == i {
      ExportGroupsMeshAt(gs, typeFrom, layer, i);
    }
  }

  /** Every element refers to one of the document's meshes (the foreign
      key), elements come group by group, and all elements of a group
      carry the same face colours: those converted, with the mesh, from
      the group's first object. */
  lemma ExportElements(objs: seq<SceneObject>, author: string, today: string, typeFrom: string, layer: Option<string>)
    requires Export(objs, author, today, typeFrom, layer).Ok?
    ensures var doc := Export(objs, author, today, typeFrom, layer).value;
      && (forall k :: 0 <= k < |doc.elements| ==> doc.elements[k].meshId < |doc.meshes|)
      && (forall k, k' :: 0 <= k < k' < |doc.elements| ==> doc.elements[k].meshId <= doc.elements[k'].meshId)
      && (forall k, k' ::
            0 <= k < |doc.elements| && 0 <= k' < |doc.elements| && doc.elements[k].meshId == doc.elements[k'].meshId
            ==> doc.elements[k].faceColors == doc.elements[k'].faceColors)
    ensures var doc := Export(objs, author, today, typeFrom, layer).value;
      forall k :: 0 <= k < |doc.elements| ==>
        var i := doc.elements[k].meshId;
        i < |GroupsOf(objs)| && i < |doc.meshes| && GroupsOf(objs)[i].users != []
        && Convert(GroupsOf(objs)[i].users[0].evaluated, i, GroupsOf(objs)[i].users[0].worldScale, layer)
           == Ok((doc.meshes[i], doc.elements[k].faceColors))
  {
    ExportUnfold(objs, author, today, typeFrom, layer);
    var gs := GroupsOf(objs);
    var es := ExportGroups(gs, typeFrom, layer).value.1;
    var ms := ExportGroups(gs, typeFrom, layer).value.0;
    ExportGroupsLengths(gs, typeFrom, layer);
    forall k | 0 <= k < |es|
      ensures es[k].meshId < |gs| && gs[es[k].meshId].users != []
      ensures Convert(gs[es[k].meshId].users[0].evaluated, es[k].meshId, gs[es[k].meshId].users[0].worldScale, layer)
              == Ok((ms[es[k].meshId], es[k].faceColors))
    {
      ExportGroupsElementMesh(gs, typeFrom, layer, k);
      ExportGroupsMeshAt(gs, typeFrom, layer, es[k].meshId);
    }
    forall k, k' | 0 <= k < k' < |es| ensures es[k].meshId <= es[k'].meshId {
      ExportGroupsOrdered(gs, typeFrom, layer, k, k');
    }
  }

  /** Element `k` is built from the `k`-th object of the groups, taken
      group by group; that object is an exportable object of the scene and
      belongs to the group whose mesh the element uses. */
  lemma ExportElementsFromObjects(objs: seq<SceneObject>, author: string, today: string, typeFrom: string, layer: Option<string>)
    requires Export(objs, author, today, typeFrom, layer).Ok?
    ensures |Export(objs, author, today, typeFrom, layer).value.elements| == |AllUsers(GroupsOf(objs))|
    ensures var doc := Export(objs, author, today, typeFrom, layer).value;
      forall k :: 0 <= k < |doc.elements| ==>
        var o := AllUsers(GroupsOf(objs))[k];
        && o in objs && Exportable(o)
        && doc.elements[k].meshId < |GroupsOf(objs)|
        && KeyOf(o) == GroupsOf(objs)[doc.elements[k].meshId].key
        && ElementFor(o, doc.elements[k].meshId, doc.elements[k].faceColors, typeFrom) == Ok(doc.elements[k])
  {
    ExportUnfold(objs, author, today, typeFrom, layer);
    var gs := GroupsOf(objs);
    var es := ExportGroups(gs, typeFrom, layer).value.1;
    ExportGroupsLengths(gs, typeFrom, layer);
    GroupsOfSpec(objs);
    forall k | 0 <= k < |es|
      ensures k < |AllUsers(gs)|
      ensures AllUsers(gs)[k] in objs && Exportable(AllUsers(gs)[k])
      ensures es[k].meshId < |gs|
      ensures KeyOf(AllUsers(gs)[k]) == gs[es[k].meshId].key
      ensures ElementFor(AllUsers(gs)[k], es[k].meshId, es[k].faceColors, typeFrom) == Ok(es[k])
    {
      ExportGroupsElementFrom(gs, typeFrom, layer, k);
      var o := AllUsers(gs)[k];
      assert o in Members(objs, gs[es[k].meshId].key);
    }
  }

  /** Every exportable object of the scene gets an element, built from it,
      in the group of its key. */
  lemma EveryExportableObjectHasElement(objs: seq<SceneObject>, author: string, today: string, typeFrom: string,
                                        layer: Option<string>, o: SceneObject)
    requires Export(objs, author, today, typeFrom, layer).Ok?
    requires o in objs && Exportable(o)
    ensures var doc := Export(objs, author, today, typeFrom, layer).value;
      exists k :: 0 <= k < |doc.elements|
        && doc.elements[k].meshId < |GroupsOf(objs)|
        && GroupsOf(objs)[doc.elements[k].meshId].key == KeyOf(o)
        && ElementFor(o, doc.elements[k].meshId, doc.elements[k].faceColors, typeFrom) == Ok(doc.elements[k])
  {
    ExportUnfold(objs, author, today, typeFrom, layer);
    var gs := GroupsOf(objs);
    var es := ExportGroups(gs, typeFrom, layer).value.1;
    ExportGroupsLengths(gs, typeFrom, layer);
    GroupsPartition(objs);
    assert o in multiset(ExportableObjects(objs));
    assert o in AllUsers(gs);
    var k :| 0 <= k < |AllUsers(gs)| && AllUsers(gs)[k] == o;
    ExportElementsFromObjects(objs, author, today, typeFrom, layer);
    assert 0 <= k < |es|;
  }

  // ---------------------------------------------------------------------
  // When an export fails

  /** The requested colour layer is missing from an object's evaluated mesh,
      which has colour layers: the lookup raises. */
  predicate MissingLayer(o: SceneObject, layer: Option<string>) {
    layer.Some? && layer.value != "" && |o.evaluated.colorLayers| > 0 && layer.value !in o.evaluated.colorLayers
  }

  /** Which failure building a group's elements reports. */
  lemma {:induction false} GroupElementsError(us: seq<SceneObject>, meshId: nat, fc: Option<seq<real>>, typeFrom: string)
    requires GroupElements(us, meshId, fc, typeFrom).Err?
    ensures exists o :: o in us && !Labelled(o, typeFrom)
                        && GroupElements(us, meshId, fc, typeFrom).error == NoCollection(o.name)
    decreases |us|
  {
    var p := us[..|us| - 1];
    var last := us[|us| - 1];
    if GroupElements(p, meshId, fc, typeFrom).Err? {
      GroupElementsError(p, meshId, fc, typeFrom);
      var o :| o in p && !Labelled(o, typeFrom) && GroupElements(p, meshId, fc, typeFrom).error == NoCollection(o.name);
      assert o in us;
    } else {
      ElementForSpec(last, meshId, fc, typeFrom);
      assert last in us;
    }
  }

  /** `ExportGroups` succeeds when the last turn does and the turns before
      it do. */
  lemma ExportGroupsLastOk(gs: seq<Group>, typeFrom: string, layer: Option<string>)
    requires NonEmptyGroups(gs) && gs != []
    ensures NonEmptyGroups(gs[..|gs| - 1])
    ensures ExportGroups(gs, typeFrom, layer).Ok? <==>
      ExportGroups(gs[..|gs| - 1], typeFrom, layer).Ok?
      && GroupMesh(gs, |gs| - 1, layer).Ok?
      && GroupElements(gs[|gs| - 1].users, |gs| - 1, GroupMesh(gs, |gs| - 1, layer).value.1, typeFrom).Ok?
    ensures ExportGroups(gs, typeFrom, layer).Err? ==>
      if ExportGroups(gs[..|gs| - 1], typeFrom, layer).Err? then
        ExportGroups(gs, typeFrom, layer).error == ExportGroups(gs[..|gs| - 1], typeFrom, layer).error
      else if GroupMesh(gs, |gs| - 1, layer).Err? then
        ExportGroups(gs, typeFrom, layer).error == GroupMesh(gs, |gs| - 1, layer).error
      else
        ExportGroups(gs, typeFrom, layer).error
        == GroupElements(gs[|gs| - 1].users, |gs| - 1, GroupMesh(gs, |gs| - 1, layer).value.1, typeFrom).error
  {
  }

  /** No group's first object misses the requested colour layer. */
  ghost predicate LayersPresent(gs: seq<Group>, layer: Option<string>)
    requires NonEmptyGroups(gs)
  {
    forall i :: 0 <= i < |gs| ==> !MissingLayer(gs[i].users[0], layer)
  }

  /** Every object can be given a type label. */
  ghost predicate AllLabelled(us: seq<SceneObject>, typeFrom: string) {
    forall o :: o in us ==> Labelled(o, typeFrom)
  }

  lemma LayersPresentLast(gs: seq<Group>, layer: Option<string>)
    requires NonEmptyGroups(gs) && gs != []
    ensures NonEmptyGroups(gs[..|gs| - 1])
    ensures LayersPresent(gs, layer) <==>
      LayersPresent(gs[..|gs| - 1], layer) && !MissingLayer(gs[|gs| - 1].users[0], layer)
  {
    var p := gs[..|gs| - 1];
    forall i | 0 <= i < |p| ensures p[i] == gs[i] { }
  }

  lemma AllLabelledAppend(a: seq<SceneObject>, b: seq<SceneObject>, typeFrom: string)
    ensures AllLabelled(a + b, typeFrom) <==> AllLabelled(a, typeFrom) && AllLabelled(b, typeFrom)
  {
    assert forall o :: o in a + b <==> o in a || o in b;
  }

  /** The meshes and elements of the groups are built exactly when no group's
      first object misses the requested colour layer and every object can be
      labelled. */
  lemma {:induction false} ExportGroupsOk(gs: seq<Group>, typeFrom: string, layer: Option<string>)
    requires NonEmptyGroups(gs)
    ensures ExportGroups(gs, typeFrom, layer).Ok? <==>
      LayersPresent(gs, layer) && AllLabelled(AllUsers(gs), typeFrom)
    decreases |gs|
  {
    if gs != [] {
      var n := |gs| - 1;
      var p := gs[..n];
      var base := gs[n].users[0];
      ExportGroupsLastOk(gs, typeFrom, layer);
      ExportGroupsOk(p, typeFrom, layer);
      LayersPresentLast(gs, layer);
      ConvertOutcome(base.evaluated, n, base.worldScale, layer);
      AllUsersLast(gs);
      AllLabelledAppend(AllUsers(p), gs[n].users, typeFrom);
      if GroupMesh(gs, n, layer).Ok? {
        GroupElementsOk(gs[n].users, n, GroupMesh(gs, n, layer).value.1, typeFrom);
      }
    }
  }

  /** A failed export of the groups reports the missing colour layer or an
      object that cannot be labelled. */
  lemma {:induction false} ExportGroupsError(gs: seq<Group>, typeFrom: string, layer: Option<string>)
    requires NonEmptyGroups(gs)
    requires ExportGroups(gs, typeFrom, layer).Err?
    ensures (layer.Some? && ExportGroups(gs, typeFrom, layer).error == MissingColorLayer(layer.value))
      || (exists o :: o in AllUsers(gs) && !Labelled(o, typeFrom)
                      && ExportGroups(gs, typeFrom, layer).error == NoCollection(o.name))
    decreases |gs|
  {
    var n := |gs| - 1;
    var p := gs[..n];
    var base := gs[n].users[0];
    ExportGroupsLastOk(gs, typeFrom, layer);
    AllUsersLast(gs);
    if ExportGroups(p, typeFrom, layer).Err? {
      ExportGroupsError(p, typeFrom, layer);
    } else if GroupMesh(gs, n, layer).Err? {
      ConvertOutcome(base.evaluated, n, base.worldScale, layer);
    } else {
      GroupElementsError(gs[n].users, n, GroupMesh(gs, n, layer).value.1, typeFrom);
    }
  }

  /** An export fails exactly when the requested colour layer is missing
      from the mesh of some group's first object, or when, in collection
      mode, some exportable object belongs to no collection; the failure
      reports that layer or that object. */
  lemma ExportFailure(objs: seq<SceneObject>, author: string, today: string, typeFrom: string, layer: Option<string>)
    ensures Export(objs, author, today, typeFrom, layer).Err? <==>
      (exists i :: 0 <= i < |GroupsOf(objs)| && GroupsOf(objs)[i].users != []
                   && MissingLayer(GroupsOf(objs)[i].users[0], layer))
      || (exists o :: o in objs && Exportable(o) && !Labelled(o, typeFrom))
    ensures Export(objs, author, today, typeFrom, layer).Err? ==>
      (layer.Some? && Export(objs, author, today, typeFrom, layer).error == MissingColorLayer(layer.value))
      || (exists o :: o in objs && Exportable(o) && typeFrom == "COLLECTION" && |o.collections| == 0
                      && Export(objs, author, today, typeFrom, layer).error == NoCollection(o.name))
  {
    ExportUnfold(objs, author, today, typeFrom, layer);
    var gs := GroupsOf(objs);
    ExportGroupsOk(gs, typeFrom, layer);
    GroupsPartition(objs);
    assert forall o :: o in AllUsers(gs) <==> o in objs && Exportable(o) by {
      forall o ensures o in AllUsers(gs) <==> o in objs && Exportable(o) {
        assert o in AllUsers(gs) <==> o in multiset(AllUsers(gs));
        assert o in ExportableObjects(objs) <==> o in multiset(ExportableObjects(objs));
      }
    }
    if ExportGroups(gs, typeFrom, layer).Err? {
      ExportGroupsError(gs, typeFrom, layer);
    }
  }

  // ---------------------------------------------------------------------
  // Buffers of a successful export

  /** `mesh` holds the buffers of some exportable object of `objs`: three
      coordinates per vertex, three indices per triangle, and every index
      names one of its vertices. */
  predicate BuffersOfSceneMesh(objs: seq<SceneObject>, mesh: MeshRecord) {
    (exists o :: o in objs && Exportable(o)
       && |mesh.coordinates| == 3 * |o.evaluated.vertices|
       && |mesh.indices| == 3 * |o.evaluated.triangles|)
    && |mesh.indices| % 3 == 0 && |mesh.coordinates| % 3 == 0
    && forall n :: 0 <= n < |mesh.indices| ==> mesh.indices[n] < |mesh.coordinates| / 3
  }

  /** The first object of every group is an exportable object of the scene. */
  lemma GroupBaseInScene(objs: seq<SceneObject>, i: nat)
    requires i < |GroupsOf(objs)|
    ensures GroupsOf(objs)[i].users != []
    ensures GroupsOf(objs)[i].users[0] in objs && Exportable(GroupsOf(objs)[i].users[0])
  {
    GroupsOfSpec(objs);
    var g := GroupsOf(objs)[i];
    assert g.users[0] in Members(objs, g.key);
  }

  /** Mesh `i` of a successful export is the converted mesh of an
      exportable object of the scene, with that mesh's counts. */
  lemma GroupMeshValid(objs: seq<SceneObject>, typeFrom: string, layer: Option<string>, i: nat)
    returns (base: SceneObject)
    requires NonEmptyGroups(GroupsOf(objs))
    requires ExportGroups(GroupsOf(objs), typeFrom, layer).Ok?
    requires forall o :: o in objs && Exportable(o) ==> WellFormed(o.evaluated)
    requires i < |ExportGroups(GroupsOf(objs), typeFrom, layer).value.0|
    ensures var mesh := ExportGroups(GroupsOf(objs), typeFrom, layer).value.0[i];
      base in objs && Exportable(base)
      && |mesh.coordinates| == 3 * |base.evaluated.vertices|
      && |mesh.indices| == 3 * |base.evaluated.triangles|
      && |mesh.indices| % 3 == 0 && |mesh.coordinates| % 3 == 0
      && forall n :: 0 <= n < |mesh.indices| ==> mesh.indices[n] < |mesh.coordinates| / 3
  {
    var gs := GroupsOf(objs);
    ExportGroupsLengths(gs, typeFrom, layer);
    GroupBaseInScene(objs, i);
    base := gs[i].users[0];
    ExportGroupsMeshAt(gs, typeFrom, layer, i);
    var mesh := ExportGroups(gs, typeFrom, layer).value.0[i];
    var conv := Convert(base.evaluated, i, base.worldScale, layer);
    assert GroupMesh(gs, i, layer) == conv;
    ConvertedMeshValid(base.evaluated, i, base.worldScale, layer);
    assert conv.value.0 == mesh;
    assert |mesh.coordinates| == 3 * |base.evaluated.vertices| && |mesh.indices| == 3 * |base.evaluated.triangles|;
    ThreeTimes(|base.evaluated.vertices|);
    ThreeTimes(|base.evaluated.triangles|);
  }

  /** Mesh `i` of the document, as `GroupMeshValid` describes it. */
  lemma DocumentMeshValid(objs: seq<SceneObject>, author: string, today: string, typeFrom: string,
                          layer: Option<string>, i: nat)
    returns (base: SceneObject)
    requires Export(objs, author, today, typeFrom, layer).Ok?
    requires forall o :: o in objs && Exportable(o) ==> WellFormed(o.evaluated)
    requires i < |Export(objs, author, today, typeFrom, layer).value.meshes|
    ensures var mesh := Export(objs, author, today, typeFrom, layer).value.meshes[i];
      base in objs && Exportable(base)
      && |mesh.coordinates| == 3 * |base.evaluated.vertices|
      && |mesh.indices| == 3 * |base.evaluated.triangles|
      && |mesh.indices| % 3 == 0 && |mesh.coordinates| % 3 == 0
      && forall n :: 0 <= n < |mesh.indices| ==> mesh.indices[n] < |mesh.coordinates| / 3
  {
    ExportUnfold(objs, author, today, typeFrom, layer);
    base := GroupMeshValid(objs, typeFrom, layer, i);
  }

  lemma ThreeTimes(n: nat)
    ensures (3 * n) % 3 == 0 && (3 * n) / 3 == n
  {
  }

  /** When every exportable object's evaluated mesh is well formed, every
      mesh of the document holds three coordinates per vertex and three
      indices per triangle of an exportable object's mesh, each index naming
      one of its vertices, and every element's face colours hold four
      channels per triangle of its mesh. */
  lemma ExportBuffersValid(objs: seq<SceneObject>, author: string, today: string, typeFrom: string, layer: Option<string>)
    requires Export(objs, author, today, typeFrom, layer).Ok?
    requires forall o :: o in objs && Exportable(o) ==> WellFormed(o.evaluated)
    ensures var ms := Export(objs, author, today, typeFrom, layer).value.meshes;
      forall i :: 0 <= i < |ms| ==> BuffersOfSceneMesh(objs, ms[i])
    ensures var doc := Export(objs, author, today, typeFrom, layer).value;
      forall k :: 0 <= k < |doc.elements| && doc.elements[k].faceColors.Some? ==>
        doc.elements[k].meshId < |doc.meshes|
        && |doc.elements[k].faceColors.value| == |doc.meshes[doc.elements[k].meshId].indices| / 3 * 4
  {
    var ms := Export(objs, author, today, typeFrom, layer).value.meshes;
    forall i | 0 <= i < |ms|
      ensures BuffersOfSceneMesh(objs, ms[i])
    {
      var base := DocumentMeshValid(objs, author, today, typeFrom, layer, i);
    }
    var doc := Export(objs, author, today, typeFrom, layer).value;
    forall k | 0 <= k < |doc.elements| && doc.elements[k].faceColors.Some?
      ensures doc.elements[k].meshId < |doc.meshes|
      ensures |doc.elements[k].faceColors.value| == |doc.meshes[doc.elements[k].meshId].indices| / 3 * 4
    {
      ElementColorsValid(objs, author, today, typeFrom, layer, k);
    }
  }

  /** The face colours of element `k` hold four channels per triangle of
      its mesh. */
  lemma ElementColorsValid(objs: seq<SceneObject>, author: string, today: string, typeFrom: string,
                           layer: Option<string>, k: nat)
    requires Export(objs, author, today, typeFrom, layer).Ok?
    requires forall o :: o in objs && Exportable(o) ==> WellFormed(o.evaluated)
    requires k < |Export(objs, author, today, typeFrom, layer).value.elements|
    requires Export(objs, author, today, typeFrom, layer).value.elements[k].faceColors.Some?
    ensures var doc := Export(objs, author, today, typeFrom, layer).value;
      doc.elements[k].meshId < |doc.meshes|
      && |doc.elements[k].faceColors.value| == |doc.meshes[doc.elements[k].meshId].indices| / 3 * 4
  {
    ExportElements(objs, author, today, typeFrom, layer);
    var doc := Export(objs, author, today, typeFrom, layer).value;
    var i := doc.elements[k].meshId;
    GroupBaseInScene(objs, i);
    var base := GroupsOf(objs)[i].users[0];
    ConvertedColorsAligned(base.evaluated, i, base.worldScale, layer);
  }
}
