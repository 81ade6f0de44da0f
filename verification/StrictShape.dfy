/** What the tightening pass does to a schema, node by node: what it adds, where, and nothing else. */
module StrictShape {
  import opened Json
  import opened BuildSchemas
  import opened Tightening

  // `Tightening` is about the values the schemas accept; here is the text of the
  // schemas themselves. A node is a branch when it is the immediate body of a
  // combinator; the mapping under `properties` is no node, its values are.

  /// Every node says what becomes of undeclared fields

  /** Below this node, every node that declares properties and is no branch says something about the undeclared. */
  predicate SaysThroughout(node: Json, branch: bool)
    decreases node, 1
  {
    match node
    case JArray(items) => forall i | 0 <= i < |items| :: SaysThroughout(items[i], branch)
    case JObject(fields) =>
      && ("properties" in fields && !branch ==> "additionalProperties" in fields)
      && forall key | key in fields :: SaysBelow(key, fields[key])
    case _ => true
  }

  predicate SaysBelow(key: string, value: Json)
    decreases value, 2
  {
    if key == "properties" then value.JObject? ==> forall name | name in value.fields :: SaysThroughout(value.fields[name], false)
    else SaysThroughout(value, key in ["anyOf", "oneOf", "allOf", "not"])
  }

  lemma {:induction false} ClosedThroughout(node: Json, close: bool)
    ensures SaysThroughout(Strictify(node, close), !close)
    decreases node, 2
  {
    match node
    case JArray(items) =>
      forall i | 0 <= i < |items| ensures SaysThroughout(Strictify(items[i], close), !close) {
        ClosedThroughout(items[i], close);
      }
      ArrayMeans(items, close);
    case JObject(fields) =>
      forall key | key in fields ensures SaysBelow(key, StrictField(key, fields[key])) {
        FieldClosedThroughout(key, fields[key]);
      }
      SealedSays(node, close);
    case _ =>
  }

  lemma ArrayMeans(items: seq<Json>, close: bool)
    ensures var strict := Strictify(JArray(items), close);
            strict.JArray? && |strict.items| == |items| && forall i | 0 <= i < |items| :: strict.items[i] == Strictify(items[i], close)
  {}

  lemma SealedSays(node: Json, close: bool)
    requires node.JObject?
    requires forall key | key in node.fields :: SaysBelow(key, StrictField(key, node.fields[key]))
    ensures SaysThroughout(Strictify(node, close), !close)
  {
    SealedFields(node, close);
    var strict := Strictify(node, close);
    forall key | key in strict.fields ensures SaysBelow(key, strict.fields[key]) {
      if key == "additionalProperties" && strict.fields[key].JBool? {
      } else {
        assert strict.fields[key] == StrictField(key, node.fields[key]);
      }
    }
  }

  lemma {:induction false} FieldClosedThroughout(key: string, value: Json)
    ensures SaysBelow(key, StrictField(key, value))
    decreases value, 3
  {
    if key == "properties" {
      if value.JObject? {
        forall name | name in value.fields ensures SaysThroughout(Strictify(value.fields[name], true), false) {
          ClosedThroughout(value.fields[name], true);
        }
      }
    } else {
      ClosedThroughout(value, !IsCombinator(key));
    }
  }

  /// Nothing else changes

  /** The strict node is the original with undeclared fields forbidden, or allowed where unknown ones are preserved. */
  predicate OnlyAdded(node: Json, strict: Json, branch: bool)
    decreases node, 1
  {
    match node
    case JArray(items) =>
      && strict.JArray? && |strict.items| == |items|
      && forall i | 0 <= i < |items| :: OnlyAdded(items[i], strict.items[i], branch)
    case JObject(fields) =>
      && strict.JObject?
      && (forall key | key in fields && key != "additionalProperties" ::
            key in strict.fields && OnlyAddedBelow(key, fields[key], strict.fields[key]))
      && (forall key | key in strict.fields && key != "additionalProperties" :: key in fields)
      && (if "x-kubernetes-preserve-unknown-fields" in fields && fields["x-kubernetes-preserve-unknown-fields"] == JBool(true)
          then "additionalProperties" in strict.fields && strict.fields["additionalProperties"] == JBool(true)
          else if "additionalProperties" in fields
          then "additionalProperties" in strict.fields
               && OnlyAdded(fields["additionalProperties"], strict.fields["additionalProperties"], false)
          else if "properties" in fields && !branch
          then "additionalProperties" in strict.fields && strict.fields["additionalProperties"] == JBool(false)
          else "additionalProperties" !in strict.fields)
    case _ => strict == node
  }

  predicate OnlyAddedBelow(key: string, value: Json, strict: Json)
    decreases value, 2
  {
    if key == "properties" then
      if value.JObject? then
        && strict.JObject? && strict.fields.Keys == value.fields.Keys
        && forall name | name in value.fields :: OnlyAdded(value.fields[name], strict.fields[name], false)
      else strict == value
    else OnlyAdded(value, strict, key in ["anyOf", "oneOf", "allOf", "not"])
  }

  /** Every field of every node is kept, in its strict form; what is added is said exactly. */
  lemma {:induction false} PassOnlyAdds(node: Json, close: bool)
    ensures OnlyAdded(node, Strictify(node, close), !close)
    decreases node, 2
  {
    match node
    case JArray(items) =>
      forall i | 0 <= i < |items| ensures OnlyAdded(items[i], Strictify(items[i], close), !close) {
        PassOnlyAdds(items[i], close);
      }
      ArrayMeans(items, close);
    case JObject(fields) =>
      forall key | key in fields ensures OnlyAddedBelow(key, fields[key], StrictField(key, fields[key])) {
        FieldOnlyAdds(key, fields[key]);
      }
      SealedOnlyAdds(node, close);
    case _ =>
  }

  lemma SealedOnlyAdds(node: Json, close: bool)
    requires node.JObject?
    requires forall key | key in node.fields :: OnlyAddedBelow(key, node.fields[key], StrictField(key, node.fields[key]))
    ensures OnlyAdded(node, Strictify(node, close), !close)
  {
    SealedFields(node, close);
    var strict := Strictify(node, close);
    forall key | key in node.fields && key != "additionalProperties"
      ensures key in strict.fields && strict.fields[key] == StrictField(key, node.fields[key])
    {
      KeyKept(node, close, key);
    }
  }

  lemma {:induction false} FieldOnlyAdds(key: string, value: Json)
    ensures OnlyAddedBelow(key, value, StrictField(key, value))
    decreases value, 3
  {
    if key == "properties" {
      if value.JObject? {
        forall name | name in value.fields ensures OnlyAdded(value.fields[name], Strictify(value.fields[name], true), false) {
          PassOnlyAdds(value.fields[name], true);
        }
      }
    } else {
      PassOnlyAdds(value, !IsCombinator(key));
    }
  }

  /// And so it is the pass

  lemma {:induction false} OnlyOneStrictForm(node: Json, a: Json, b: Json, branch: bool)
    requires OnlyAdded(node, a, branch) && OnlyAdded(node, b, branch)
    ensures a == b
    decreases node, 1
  {
    match node
    case JArray(items) =>
      forall i | 0 <= i < |items| ensures a.items[i] == b.items[i] {
        OnlyOneStrictForm(items[i], a.items[i], b.items[i], branch);
      }
    case JObject(fields) =>
      forall key | key in fields && key != "additionalProperties" ensures a.fields[key] == b.fields[key] {
        OnlyOneBelow(key, fields[key], a.fields[key], b.fields[key]);
      }
      if "additionalProperties" in fields && !Preserves(node) {
        OnlyOneStrictForm(fields["additionalProperties"], a.fields["additionalProperties"], b.fields["additionalProperties"], false);
      }
      SameFields(a.fields, b.fields);
    case _ =>
  }

  lemma SameFields(a: map<string, Json>, b: map<string, Json>)
    requires forall key :: key in a <==> key in b
    requires forall key | key in a && key in b :: a[key] == b[key]
    ensures a == b
  {}

  lemma {:induction false} OnlyOneBelow(key: string, value: Json, a: Json, b: Json)
    requires OnlyAddedBelow(key, value, a) && OnlyAddedBelow(key, value, b)
    ensures a == b
    decreases value, 2
  {
    if key == "properties" {
      if value.JObject? {
        forall name | name in value.fields ensures a.fields[name] == b.fields[name] {
          OnlyOneStrictForm(value.fields[name], a.fields[name], b.fields[name], false);
        }
        SameFields(a.fields, b.fields);
      }
    } else {
      OnlyOneStrictForm(value, a, b, key in ["anyOf", "oneOf", "allOf", "not"]);
    }
  }

  /** The pass gives the one schema that only adds what undeclared fields need. */
  lemma PassExactly(node: Json, strict: Json, close: bool)
    ensures strict == Strictify(node, close) <==> OnlyAdded(node, strict, !close)
  {
    PassOnlyAdds(node, close);
    if OnlyAdded(node, strict, !close) {
      OnlyOneStrictForm(node, strict, Strictify(node, close), !close);
    }
  }

  /// When the pass fails

  datatype Step = Key(key: string) | Index(i: nat)

  /** Along the path, over nodes and the values of `properties`, stands a `properties` that is no mapping. */
  predicate LeadsToFault(node: Json, path: seq<Step>)
    decreases |path|
  {
    && path != []
    && match path[0]
       case Index(i) => node.JArray? && i < |node.items| && LeadsToFault(node.items[i], path[1..])
       case Key(key) =>
         && node.JObject? && key in node.fields
         && var value := node.fields[key];
            if key != "properties" then LeadsToFault(value, path[1..])
            else if !value.JObject? then |path| == 1
            else
              && |path| > 1 && path[1].Key? && path[1].key in value.fields
              && LeadsToFault(value.fields[path[1].key], path[2..])
  }

  lemma {:induction false} FaultRaises(node: Json, path: seq<Step>)
    requires LeadsToFault(node, path)
    ensures Raises(node)
    decreases |path|
  {
    match path[0]
    case Index(i) => FaultRaises(node.items[i], path[1..]);
    case Key(key) =>
      var value := node.fields[key];
      if key != "properties" {
        FaultRaises(value, path[1..]);
      } else if value.JObject? {
        FaultRaises(value.fields[path[1].key], path[2..]);
      }
      assert RaisesIn(key, value);
  }

  lemma {:induction false} RaisesAtFault(node: Json) returns (path: seq<Step>)
    requires Raises(node)
    ensures LeadsToFault(node, path)
    decreases node, 2
  {
    if node.JArray? {
      var i :| 0 <= i < |node.items| && Raises(node.items[i]);
      var rest := RaisesAtFault(node.items[i]);
      path := [Index(i)] + rest;
      assert path[1..] == rest;
    } else {
      var key :| key in node.fields && RaisesIn(key, node.fields[key]);
      path := FaultBelow(node, key);
    }
  }

  lemma {:induction false} FaultBelow(node: Json, key: string) returns (path: seq<Step>)
    requires node.JObject? && key in node.fields && RaisesIn(key, node.fields[key])
    ensures LeadsToFault(node, path)
    decreases node, 1
  {
    var value := node.fields[key];
    if key != "properties" {
      var rest := RaisesAtFault(value);
      path := [Key(key)] + rest;
      assert path[1..] == rest;
    } else if value.JObject? {
      var name :| name in value.fields && Raises(value.fields[name]);
      var rest := RaisesAtFault(value.fields[name]);
      path := [Key(key), Key(name)] + rest;
      assert path[2..] == rest;
    } else {
      path := [Key(key)];
    }
  }

  ghost predicate HasFault(node: Json) {
    exists path :: LeadsToFault(node, path)
  }

  /** The pass fails exactly when some path through the schema meets a `properties` that is no mapping. */
  lemma RaisesExactly(node: Json)
    ensures Raises(node) <==> HasFault(node)
  {
    if HasFault(node) {
      var path :| LeadsToFault(node, path);
      FaultRaises(node, path);
    } else if Raises(node) {
      var path := RaisesAtFault(node);
      assert HasFault(node);
    }
  }
}
