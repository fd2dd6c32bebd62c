/** The info map of an element: the object's name under "Name", then every
    user-authored custom property with its value as text. Properties that the
    host reflects from its own type description (runtime properties) are
    filtered out first. */
module Info {
  import opened Scene

  /** The custom properties that are not runtime properties, in order. */
  function UiProps(props: seq<CustomProp>, runtime: set<string>): (r: seq<CustomProp>)
    ensures |r| <= |props|
    ensures forall p :: p in r <==> p in props && p.key !in runtime
    decreases |props|
  {
    if props == [] then []
    else
      var p := props[|props| - 1];
      assert props == props[..|props| - 1] + [p];
      UiProps(props[..|props| - 1], runtime) + (if p.key in runtime then [] else [p])
  }

  /** The map the exporter fills: "Name" first, then each property in turn,
      a later write to a key replacing an earlier one. */
  function InfoMap(name: string, props: seq<CustomProp>): map<string, string>
    decreases |props|
  {
    if props == [] then map["Name" := name]
    else
      var p := props[|props| - 1];
      InfoMap(name, props[..|props| - 1])[p.key := p.text]
  }

  /** The loop that fills an element's info map. */
  method BuildInfo(name: string, props: seq<CustomProp>, runtime: set<string>)
    returns (info: map<string, string>)
    ensures info == InfoMap(name, UiProps(props, runtime))
  {
    var ui := UiProps(props, runtime);
    info := map["Name" := name];
    for i := 0 to |ui|
      invariant info == InfoMap(name, ui[..i])
    {
      assert ui[..i + 1][..i] == ui[..i];
      info := info[ui[i].key := ui[i].text];
    }
    assert ui[..|ui|] == ui;
  }

  /** Filtering keeps the order of the properties: it distributes over
      concatenation. */
  lemma {:induction false} UiPropsAppend(a: seq<CustomProp>, b: seq<CustomProp>, runtime: set<string>)
    ensures UiProps(a + b, runtime) == UiProps(a, runtime) + UiProps(b, runtime)
    decreases |b|
  {
    if b == [] {
      assert a + b == a;
    } else {
      var b' := b[..|b| - 1];
      assert (a + b)[..|a + b| - 1] == a + b';
      UiPropsAppend(a, b', runtime);
    }
  }

  /** The keys of the info map are "Name" and the keys of the properties. */
  lemma {:induction false} InfoKeys(name: string, props: seq<CustomProp>)
    ensures InfoMap(name, props).Keys == {"Name"} + set p | p in props :: p.key
    decreases |props|
  {
    if props != [] {
      var q := props[..|props| - 1];
      InfoKeys(name, q);
      assert props == q + [props[|props| - 1]];
    }
  }

  /** Later writes win: a key maps to the text of the last property with
      that key. */
  lemma {:induction false} InfoLastWriteWins(name: string, props: seq<CustomProp>, j: nat)
    requires j < |props|
    requires forall i :: j < i < |props| ==> props[i].key != props[j].key
    ensures props[j].key in InfoMap(name, props)
    ensures InfoMap(name, props)[props[j].key] == props[j].text
    decreases |props|
  {
    if j < |props| - 1 {
      InfoLastWriteWins(name, props[..|props| - 1], j);
    }
  }

  /** Without a property called "Name", the object's name stays under
      "Name". */
  lemma {:induction false} InfoKeepsName(name: string, props: seq<CustomProp>)
    requires forall i :: 0 <= i < |props| ==> props[i].key != "Name"
    ensures "Name" in InfoMap(name, props) && InfoMap(name, props)["Name"] == name
    decreases |props|
  {
    if props != [] {
      InfoKeepsName(name, props[..|props| - 1]);
    }
  }

  /** What the info map of an object holds: "Name", every property that is
      not a runtime property (with the text of its last occurrence), and no
      runtime property other than a "Name" entry. */
  lemma ObjectInfo(name: string, props: seq<CustomProp>, runtime: set<string>)
    ensures forall k :: k in InfoMap(name, UiProps(props, runtime)) <==>
      k == "Name" || exists p :: p in props && p.key == k && k !in runtime
    ensures forall k :: k in runtime && k != "Name" ==> k !in InfoMap(name, UiProps(props, runtime))
  {
    var ui := UiProps(props, runtime);
    InfoKeys(name, ui);
  }
}
