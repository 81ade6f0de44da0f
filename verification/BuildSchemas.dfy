/**
  The tightening pass of nix/schemas/build-schemas.py: forbid the fields an
  object schema does not declare, except where its author allowed them, and
  except in the immediate body of a combinator branch.
 */
module BuildSchemas {
  import opened Prelude
  import opened Json

  const PRESERVE := "x-kubernetes-preserve-unknown-fields"

  predicate IsCombinator(key: string) {
    key == "anyOf" || key == "oneOf" || key == "allOf" || key == "not"
  }

  predicate Preserves(node: Json) {
    Get(node, PRESERVE) == Some(JBool(true))
  }

  /// The pass as a function

  function Strictify(node: Json, close: bool): Json
    decreases node, 2
  {
    match node
    case JArray(items) => JArray(seq(|items|, i requires 0 <= i < |items| => Strictify(items[i], close)))
    case JObject(fields) =>
      JObject(Sealed(node, close, map key | key in fields :: StrictField(key, fields[key])))
    case _ => node
  }

  function StrictField(key: string, value: Json): Json
    decreases value, 3
  {
    if IsCombinator(key) then Strictify(value, false)
    else if key == "properties" then StrictProperties(value)
    else Strictify(value, true)
  }

  function StrictProperties(value: Json): Json
    decreases value, 1
  {
    match value
    case JObject(props) => JObject(map name | name in props :: Strictify(props[name], true))
    case _ => value
  }

  /** The last step: unknown fields are allowed, forbidden, or as the node had them. */
  function Sealed(node: Json, close: bool, out: map<string, Json>): map<string, Json> {
    if Preserves(node) then out["additionalProperties" := JBool(true)]
    else if close && Get(node, "properties").Some? && Get(node, "additionalProperties").None? then
      out["additionalProperties" := JBool(false)]
    else out
  }

  /** The pass fails on a `properties` that is not a mapping, wherever it stands. */
  predicate Raises(node: Json)
    decreases node, 2
  {
    match node
    case JArray(items) => exists i | 0 <= i < |items| :: Raises(items[i])
    case JObject(fields) => exists key | key in fields :: RaisesIn(key, fields[key])
    case _ => false
  }

  predicate RaisesIn(key: string, value: Json)
    decreases value, 3
  {
    if key != "properties" then Raises(value)
    else !value.JObject? || exists name | name in value.fields :: Raises(value.fields[name])
  }

  /// The pass as it runs

  datatype StrictifyError = PropertiesNotAMapping

  method StrictifyNode(node: Json, close: bool) returns (r: Result<Json, StrictifyError>)
    ensures r == if Raises(node) then Err(PropertiesNotAMapping) else Ok(Strictify(node, close))
    decreases node, 2
  {
    if node.JArray? {
      var out: seq<Json> := [];
      for i := 0 to |node.items|
        invariant |out| == i
        invariant forall j | 0 <= j < i :: out[j] == Strictify(node.items[j], close) && !Raises(node.items[j])
      {
        var item := StrictifyNode(node.items[i], close);
        if item.Err? {
          return item;
        }
        out := out + [item.value];
      }
      assert out == seq(|node.items|, i requires 0 <= i < |node.items| => Strictify(node.items[i], close));
      return Ok(JArray(out));
    }
    if !node.JObject? {
      return Ok(node);
    }
    var fields := node.fields;
    var out: map<string, Json> := map[];
    var pending := fields.Keys;
    while pending != {}
      invariant pending <= fields.Keys && out.Keys == fields.Keys - pending
      invariant forall key | key in out :: out[key] == StrictField(key, fields[key]) && !RaisesIn(key, fields[key])
      decreases pending
    {
      var key :| key in pending;
      pending := pending - {key};
      var value := StrictifyField(key, fields[key]);
      if value.Err? {
        assert RaisesIn(key, fields[key]);
        return value;
      }
      out := out[key := value.value];
    }
    assert out == map key | key in fields :: StrictField(key, fields[key]);
    r := Ok(JObject(Sealed(node, close, out)));
  }

  method StrictifyField(key: string, value: Json) returns (r: Result<Json, StrictifyError>)
    ensures r == if RaisesIn(key, value) then Err(PropertiesNotAMapping) else Ok(StrictField(key, value))
    decreases value, 3
  {
    if IsCombinator(key) {
      r := StrictifyNode(value, false);
    } else if key == "properties" {
      if !value.JObject? {
        return Err(PropertiesNotAMapping);
      }
      var props := value.fields;
      var out: map<string, Json> := map[];
      var pending := props.Keys;
      while pending != {}
        invariant pending <= props.Keys && out.Keys == props.Keys - pending
        invariant forall name | name in out :: out[name] == Strictify(props[name], true) && !Raises(props[name])
        decreases pending
      {
        var name :| name in pending;
        pending := pending - {name};
        var sub := StrictifyNode(props[name], true);
        if sub.Err? {
          assert Raises(value.fields[name]) && RaisesIn(key, value);
          return sub;
        }
        out := out[name := sub.value];
      }
      assert out == map name | name in props :: Strictify(props[name], true);
      assert StrictField(key, value) == StrictProperties(value);
      r := Ok(JObject(out));
    } else {
      r := StrictifyNode(value, true);
    }
  }
}
