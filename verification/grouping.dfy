/** Instance grouping: which exported objects share one mesh.

    The exporter walks the objects once, skips those whose type is not exported,
    and files every other object under a key in an insertion-ordered
    dictionary: the object itself when it has modifiers or a non-unit local
    scale, otherwise the data block it uses. Each dictionary entry becomes
    one mesh, numbered in first-seen order. The dictionary is modelled as an
    ordered association list of groups. */
module Grouping {
  import opened Wrappers
  import opened Scene

  datatype Group = Group(key: Key, users: seq<SceneObject>)

  /** The position of the group filed under `k`, if there is one. */
  function FindKey(gs: seq<Group>, k: Key): (r: Option<nat>)
    ensures r.Some? ==> r.value < |gs| && gs[r.value].key == k
    ensures r.None? <==> forall i :: 0 <= i < |gs| ==> gs[i].key != k
  {
    if gs == [] then None
    else if gs[0].key == k then Some(0)
    else match FindKey(gs[1..], k)
      case None => None
      case Some(i) => Some(i + 1)
  }

  /** Files one exportable object: appended to its key's group, or opening a
      new group at the end. */
  function AddUser(gs: seq<Group>, o: SceneObject): seq<Group> {
    var k := KeyOf(o);
    match FindKey(gs, k)
    case Some(i) => gs[i := Group(k, gs[i].users + [o])]
    case None => gs + [Group(k, [o])]
  }

  /** The groups built from `objs`, as the first loop of the exporter
      leaves its dictionary. */
  function GroupsOf(objs: seq<SceneObject>): seq<Group>
    decreases |objs|
  {
    if objs == [] then []
    else
      var gs := GroupsOf(objs[..|objs| - 1]);
      var o := objs[|objs| - 1];
      if Exportable(o) then AddUser(gs, o) else gs
  }

  /** Independent reference: the exportable objects with key `k`, in input
      order. */
  function Members(objs: seq<SceneObject>, k: Key): (r: seq<SceneObject>)
    ensures forall o :: o in r <==> o in objs && Exportable(o) && KeyOf(o) == k
    decreases |objs|
  {
    if objs == [] then []
    else
      var o := objs[|objs| - 1];
      assert objs == objs[..|objs| - 1] + [o];
      Members(objs[..|objs| - 1], k) + (if Exportable(o) && KeyOf(o) == k then [o] else [])
  }

  /** The input position of the first exportable object with key `k`, or
      `|objs|` when there is none. */
  function FirstSeen(objs: seq<SceneObject>, k: Key): (r: nat)
    ensures r <= |objs|
    ensures r < |objs| ==> Exportable(objs[r]) && KeyOf(objs[r]) == k
    ensures forall j :: 0 <= j < r && j < |objs| ==> !(Exportable(objs[j]) && KeyOf(objs[j]) == k)
    decreases |objs|
  {
    if objs == [] then 0
    else if Exportable(objs[0]) && KeyOf(objs[0]) == k then 0
    else 1 + FirstSeen(objs[1..], k)
  }

  ghost predicate DistinctKeys(gs: seq<Group>) {
    forall i, j :: 0 <= i < j < |gs| ==> gs[i].key != gs[j].key
  }

  /** All users of all groups, group by group. */
  function AllUsers(gs: seq<Group>): seq<SceneObject>
    decreases |gs|
  {
    if gs == [] then [] else AllUsers(gs[..|gs| - 1]) + gs[|gs| - 1].users
  }

  /** The first loop of the exporter over the objects, filling the
      dictionary of groups. */
  method GroupObjects(objs: seq<SceneObject>) returns (groups: seq<Group>)
    ensures groups == GroupsOf(objs)
  {
    groups := [];
    for n := 0 to |objs|
      invariant groups == GroupsOf(objs[..n])
    {
      var o := objs[n];
      assert objs[..n + 1][..n] == objs[..n];
      if !Exportable(o) {
        continue;
      }
      var k := KeyOf(o);
      match FindKey(groups, k)
      case Some(i) =>
        groups := groups[i := Group(k, groups[i].users + [o])];
      case None =>
        groups := groups + [Group(k, [o])];
    }
    assert objs[..|objs|] == objs;
  }

  // ---------------------------------------------------------------------
  // Lemmas about the reference definitions

  lemma MembersSnoc(p: seq<SceneObject>, o: SceneObject, k: Key)
    ensures Members(p + [o], k) == Members(p, k) + (if Exportable(o) && KeyOf(o) == k then [o] else [])
  {
    assert (p + [o])[..|p|] == p;
  }

  lemma {:induction false} MembersAppend(a: seq<SceneObject>, b: seq<SceneObject>, k: Key)
    ensures Members(a + b, k) == Members(a, k) + Members(b, k)
    decreases |b|
  {
    if b == [] {
      assert a + b == a;
    } else {
      var b' := b[..|b| - 1];
      assert (a + b)[..|a + b| - 1] == a + b';
      MembersAppend(a, b', k);
    }
  }

  lemma FirstSeenSnoc(p: seq<SceneObject>, o: SceneObject, k: Key)
    ensures FirstSeen(p + [o], k) ==
      if FirstSeen(p, k) < |p| then FirstSeen(p, k)
      else if Exportable(o) && KeyOf(o) == k then |p|
      else |p| + 1
  {
    var q := p + [o];
    var r1, r2 := FirstSeen(p, k), FirstSeen(q, k);
    assert forall j :: 0 <= j < |p| ==> q[j] == p[j];
    assert q[|p|] == o;
    if r1 < |p| {
      assert q[r1] == p[r1];
    }
  }

  lemma {:induction false} MembersFirstSeen(objs: seq<SceneObject>, k: Key)
    ensures Members(objs, k) != [] <==> FirstSeen(objs, k) < |objs|
  {
    var r := FirstSeen(objs, k);
    if r < |objs| {
      assert objs[r] in Members(objs, k);
    }
    if Members(objs, k) != [] {
      var x := Members(objs, k)[0];
      assert x in Members(objs, k);
      var j :| 0 <= j < |objs| && objs[j] == x;
      assert r <= j;
    }
  }

  /** The objects of the groups are those of all groups but the last,
      then the last group's. */
  lemma AllUsersLast(gs: seq<Group>)
    requires gs != []
    ensures AllUsers(gs) == AllUsers(gs[..|gs| - 1]) + gs[|gs| - 1].users
  {
  }

  lemma {:induction false} AllUsersUpdate(gs: seq<Group>, i: nat, o: SceneObject)
    requires i < |gs|
    ensures multiset(AllUsers(gs[i := Group(gs[i].key, gs[i].users + [o])]))
         == multiset(AllUsers(gs)) + multiset{o}
    decreases |gs|
  {
    var gs' := gs[i := Group(gs[i].key, gs[i].users + [o])];
    var n := |gs| - 1;
    if i == n {
      assert gs'[..n] == gs[..n];
    } else {
      assert gs'[..n] == gs[..n][i := Group(gs[i].key, gs[i].users + [o])];
      AllUsersUpdate(gs[..n], i, o);
    }
  }

  /** Each group holds all and only the exportable objects with its key, in
      input order, and is not empty. */
  ghost predicate UsersAreMembers(objs: seq<SceneObject>, gs: seq<Group>) {
    forall i :: 0 <= i < |gs| ==> gs[i].users == Members(objs, gs[i].key) && gs[i].users != []
  }

  /** Every key of an exportable object has a group, and no other key has. */
  ghost predicate KeysCovered(objs: seq<SceneObject>, gs: seq<Group>) {
    forall k :: FindKey(gs, k).Some? <==> Members(objs, k) != []
  }

  /** Groups appear in the order in which their keys were first seen. */
  ghost predicate FirstSeenOrder(objs: seq<SceneObject>, gs: seq<Group>) {
    forall i, j :: 0 <= i < j < |gs| ==> FirstSeen(objs, gs[i].key) < FirstSeen(objs, gs[j].key)
  }

  function Step(gs: seq<Group>, o: SceneObject): seq<Group> {
    if Exportable(o) then AddUser(gs, o) else gs
  }

  lemma StepDistinct(gs: seq<Group>, o: SceneObject)
    requires DistinctKeys(gs)
    ensures DistinctKeys(Step(gs, o))
  {
  }

  lemma StepUsers(p: seq<SceneObject>, o: SceneObject, gs: seq<Group>)
    requires DistinctKeys(gs) && UsersAreMembers(p, gs) && KeysCovered(p, gs)
    ensures UsersAreMembers(p + [o], Step(gs, o))
  {
    if !Exportable(o) {
      forall i | 0 <= i < |gs| ensures gs[i].users == Members(p + [o], gs[i].key) {
        MembersSnoc(p, o, gs[i].key);
      }
    } else {
      match FindKey(gs, KeyOf(o))
      case Some(i0) => JoinUsers(p, o, gs, i0);
      case None => OpenUsers(p, o, gs);
    }
  }

  /** An object joining the group of its key at position `i0`. */
  lemma JoinUsers(p: seq<SceneObject>, o: SceneObject, gs: seq<Group>, i0: nat)
    requires DistinctKeys(gs) && UsersAreMembers(p, gs)
    requires Exportable(o) && i0 < |gs| && gs[i0].key == KeyOf(o)
    ensures UsersAreMembers(p + [o], gs[i0 := Group(KeyOf(o), gs[i0].users + [o])])
  {
    var gs' := gs[i0 := Group(KeyOf(o), gs[i0].users + [o])];
    forall i | 0 <= i < |gs'|
      ensures gs'[i].users == Members(p + [o], gs'[i].key) && gs'[i].users != []
    {
      MembersSnoc(p, o, gs[i].key);
    }
  }

  /** An object opening a new group for a key no group has. */
  lemma OpenUsers(p: seq<SceneObject>, o: SceneObject, gs: seq<Group>)
    requires UsersAreMembers(p, gs) && KeysCovered(p, gs)
    requires Exportable(o) && FindKey(gs, KeyOf(o)).None?
    ensures UsersAreMembers(p + [o], gs + [Group(KeyOf(o), [o])])
  {
    var k0 := KeyOf(o);
    var gs' := gs + [Group(k0, [o])];
    forall i | 0 <= i < |gs|
      ensures gs'[i].users == Members(p + [o], gs'[i].key) && gs'[i].users != []
    {
      assert gs'[i] == gs[i] && gs[i].key != k0;
      MembersSnoc(p, o, gs[i].key);
    }
    assert Members(p, k0) == [];
    MembersSnoc(p, o, k0);
    assert gs'[|gs|] == Group(k0, [o]);
  }

  lemma StepCovered(p: seq<SceneObject>, o: SceneObject, gs: seq<Group>)
    requires KeysCovered(p, gs)
    ensures KeysCovered(p + [o], Step(gs, o))
  {
    if !Exportable(o) {
      forall k ensures FindKey(gs, k).Some? <==> Members(p + [o], k) != [] {
        MembersSnoc(p, o, k);
      }
    } else {
      match FindKey(gs, KeyOf(o))
      case Some(i0) => JoinCovered(p, o, gs, i0);
      case None => OpenCovered(p, o, gs);
    }
  }

  /** Joining a group leaves the set of keys as it was. */
  lemma JoinCovered(p: seq<SceneObject>, o: SceneObject, gs: seq<Group>, i0: nat)
    requires KeysCovered(p, gs)
    requires Exportable(o) && i0 < |gs| && gs[i0].key == KeyOf(o)
    ensures KeysCovered(p + [o], gs[i0 := Group(KeyOf(o), gs[i0].users + [o])])
  {
    var gs' := gs[i0 := Group(KeyOf(o), gs[i0].users + [o])];
    forall k ensures FindKey(gs', k).Some? <==> Members(p + [o], k) != [] {
      MembersSnoc(p, o, k);
      SameKeysFind(gs, gs', k);
    }
  }

  /** Two group lists with the same keys at the same positions find the
      same keys. */
  lemma SameKeysFind(a: seq<Group>, b: seq<Group>, k: Key)
    requires |a| == |b| && forall i :: 0 <= i < |a| ==> a[i].key == b[i].key
    ensures FindKey(a, k).Some? <==> FindKey(b, k).Some?
  {
    if FindKey(a, k).Some? {
      assert b[FindKey(a, k).value].key == k;
    }
    if FindKey(b, k).Some? {
      assert a[FindKey(b, k).value].key == k;
    }
  }

  /** Opening a group adds exactly the new key. */
  lemma OpenCovered(p: seq<SceneObject>, o: SceneObject, gs: seq<Group>)
    requires KeysCovered(p, gs)
    requires Exportable(o) && FindKey(gs, KeyOf(o)).None?
    ensures KeysCovered(p + [o], gs + [Group(KeyOf(o), [o])])
  {
    var gs' := gs + [Group(KeyOf(o), [o])];
    forall k ensures FindKey(gs', k).Some? <==> Members(p + [o], k) != [] {
      MembersSnoc(p, o, k);
      if FindKey(gs, k).Some? {
        assert gs'[FindKey(gs, k).value].key == k;
      } else if k != KeyOf(o) {
        assert forall i :: 0 <= i < |gs'| ==> gs'[i].key != k by {
          forall i | 0 <= i < |gs'| ensures gs'[i].key != k {
            if i < |gs| {
              assert gs'[i] == gs[i];
            }
          }
        }
      } else {
        assert gs'[|gs|].key == k;
      }
    }
  }

  lemma StepOrder(p: seq<SceneObject>, o: SceneObject, gs: seq<Group>)
    requires UsersAreMembers(p, gs) && KeysCovered(p, gs) && FirstSeenOrder(p, gs)
    ensures FirstSeenOrder(p + [o], Step(gs, o))
  {
    var gs' := Step(gs, o);
    forall i | 0 <= i < |gs|
      ensures gs'[i].key == gs[i].key
      ensures FirstSeen(p + [o], gs[i].key) == FirstSeen(p, gs[i].key) < |p|
    {
      MembersFirstSeen(p, gs[i].key);
      FirstSeenSnoc(p, o, gs[i].key);
    }
    if |gs'| > |gs| {
      var k0 := KeyOf(o);
      assert FindKey(gs, k0).None?;
      MembersFirstSeen(p, k0);
      FirstSeenSnoc(p, o, k0);
      assert gs'[|gs|].key == k0;
    }
  }

  /** The groups are exactly the distinct keys of the exportable objects:
      each group holds all and only the exportable objects with its key, in
      input order; no group is empty; no key has two groups; and groups
      appear in the order in which their keys were first seen. */
  lemma {:induction false} GroupsOfSpec(objs: seq<SceneObject>)
    ensures DistinctKeys(GroupsOf(objs))
    ensures UsersAreMembers(objs, GroupsOf(objs))
    ensures KeysCovered(objs, GroupsOf(objs))
    ensures FirstSeenOrder(objs, GroupsOf(objs))
    decreases |objs|
  {
    if objs == [] {
      return;
    }
    var p := objs[..|objs| - 1];
    var o := objs[|objs| - 1];
    assert objs == p + [o];
    GroupsOfSpec(p);
    var gp := GroupsOf(p);
    assert GroupsOf(objs) == Step(gp, o);
    StepDistinct(gp, o);
    StepUsers(p, o, gp);
    StepCovered(p, o, gp);
    StepOrder(p, o, gp);
  }

  /** Grouping partitions the exportable objects: every exportable object is
      in exactly one group's users, and nothing else is. */
  lemma {:induction false} GroupsPartition(objs: seq<SceneObject>)
    ensures multiset(AllUsers(GroupsOf(objs))) == multiset(ExportableObjects(objs))
    ensures |AllUsers(GroupsOf(objs))| == |ExportableObjects(objs)|
    decreases |objs|
  {
    if objs == [] {
      return;
    }
    var p := objs[..|objs| - 1];
    var o := objs[|objs| - 1];
    GroupsPartition(p);
    var gp := GroupsOf(p);
    if Exportable(o) {
      var k0 := KeyOf(o);
      match FindKey(gp, k0)
      case Some(i0) =>
        AllUsersUpdate(gp, i0, o);
      case None =>
        var gs := gp + [Group(k0, [o])];
        AllUsersLast(gs);
        assert gs[..|gs| - 1] == gp;
    }
    assert |AllUsers(GroupsOf(objs))| == |multiset(AllUsers(GroupsOf(objs)))|;
  }

  /** Objects whose type is not exported affect no group:
      dropping them from the input leaves the groups unchanged. */
  lemma {:induction false} SkippedObjectsIgnored(objs: seq<SceneObject>)
    ensures GroupsOf(objs) == GroupsOf(ExportableObjects(objs))
    decreases |objs|
  {
    if objs == [] {
      return;
    }
    var p := objs[..|objs| - 1];
    var o := objs[|objs| - 1];
    SkippedObjectsIgnored(p);
    if Exportable(o) {
      var e := ExportableObjects(p) + [o];
      assert e[..|e| - 1] == ExportableObjects(p);
    }
  }

  ghost predicate DistinctObjects(objs: seq<SceneObject>) {
    forall a, b :: 0 <= a < b < |objs| ==> objs[a].id != objs[b].id
  }

  lemma {:induction false} MembersWithoutId(objs: seq<SceneObject>, n: nat)
    requires forall x :: x in objs ==> x.id != n
    ensures Members(objs, ObjKey(n)) == []
    decreases |objs|
  {
    if objs != [] {
      var p := objs[..|objs| - 1];
      assert forall x :: x in p ==> x in objs;
      MembersWithoutId(p, n);
    }
  }

  lemma {:induction false} OwnKeyMembersAtMostOne(objs: seq<SceneObject>, n: nat)
    requires DistinctObjects(objs)
    ensures |Members(objs, ObjKey(n))| <= 1
    decreases |objs|
  {
    if objs == [] {
      return;
    }
    var p := objs[..|objs| - 1];
    var o := objs[|objs| - 1];
    OwnKeyMembersAtMostOne(p, n);
    if Exportable(o) && KeyOf(o) == ObjKey(n) {
      forall x | x in p ensures x.id != n {
        var a :| 0 <= a < |p| && p[a] == x;
        assert objs[a] == x;
      }
      MembersWithoutId(p, n);
    }
  }

  /** The group of a key that some exportable object has is the list of
      exportable objects with that key. */
  lemma GroupOfKey(objs: seq<SceneObject>, k: Key)
    requires Members(objs, k) != []
    ensures FindKey(GroupsOf(objs), k).Some?
    ensures GroupsOf(objs)[FindKey(GroupsOf(objs), k).value].users == Members(objs, k)
  {
    GroupsOfSpec(objs);
  }

  /** An object with modifiers or a non-unit scale is alone in its group,
      provided the input lists each object once. */
  lemma OwnMeshIsSingleton(objs: seq<SceneObject>, o: SceneObject)
    requires DistinctObjects(objs)
    requires o in objs && Exportable(o) && NeedsOwnMesh(o)
    ensures FindKey(GroupsOf(objs), KeyOf(o)).Some?
    ensures GroupsOf(objs)[FindKey(GroupsOf(objs), KeyOf(o)).value].users == [o]
  {
    var m := Members(objs, KeyOf(o));
    assert o in m;
    GroupOfKey(objs, KeyOf(o));
    OwnKeyMembersAtMostOne(objs, o.id);
    assert m == [o] by {
      assert m[0] in m;
    }
  }

  lemma MembersSplitAt(objs: seq<SceneObject>, b: nat, k: Key)
    requires b < |objs| && Exportable(objs[b]) && KeyOf(objs[b]) == k
    ensures Members(objs, k) == Members(objs[..b], k) + [objs[b]] + Members(objs[b + 1..], k)
  {
    assert objs == (objs[..b] + [objs[b]]) + objs[b + 1..];
    MembersAppend(objs[..b] + [objs[b]], objs[b + 1..], k);
    MembersSnoc(objs[..b], objs[b], k);
  }

  /** Two exportable objects without modifiers and with unit scale that use
      the same data block land in the same group, the earlier one before the
      later one. */
  lemma SharedDataSharesGroup(objs: seq<SceneObject>, a: nat, b: nat)
    requires a < b < |objs|
    requires Exportable(objs[a]) && Exportable(objs[b])
    requires !NeedsOwnMesh(objs[a]) && !NeedsOwnMesh(objs[b])
    requires objs[a].data == objs[b].data
    ensures FindKey(GroupsOf(objs), DataKey(objs[a].data)).Some?
    ensures var k := DataKey(objs[a].data);
      var users := GroupsOf(objs)[FindKey(GroupsOf(objs), k).value].users;
      users == Members(objs[..b], k) + [objs[b]] + Members(objs[b + 1..], k)
      && objs[a] in Members(objs[..b], k)
  {
    var k := DataKey(objs[a].data);
    MembersSplitAt(objs, b, k);
    assert objs[..b][a] == objs[a];
    assert objs[a] in Members(objs[..b], k);
    GroupOfKey(objs, k);
  }
}
