/** Schemas the conversion narrows, each with a value its compiled type turns away. */
module SchemaWitnesses {
  import opened Prelude
  import opened Json
  import opened JsonSchema
  import opened NixTypes
  import opened SchemaConverter
  import opened SchemaSoundness
  import opened SchemaAlternatives

  const OPTIONS := GeneratorOptions(true, true, [])

  /** The node asserts nothing beyond its type, its properties and its items. */
  predicate Simple(s: Json) {
    && s.JObject?
    && Get(s, "enum").None? && Get(s, "required").None? && Get(s, "format").None?
    && Get(s, "allOf").None? && Get(s, "anyOf").None? && Get(s, "oneOf").None? && Get(s, "not").None?
  }

  predicate Scalar(s: Json, t: string) {
    && Simple(s) && GetString(s, "$ref").None? && GetString(s, "type") == Some(t)
    && Get(s, "properties").None? && Get(s, "additionalProperties").None? && Get(s, "items").None?
  }

  /** A whole number satisfies `type: number`, and `types.float` rejects it. */
  lemma NumberRejectsIntegers(reg: Registry, s: Json, i: int)
    requires NothingElse(reg)
    requires Scalar(s, "number")
    ensures Accepts(reg, s, JInt(i))
    ensures !Admits(false, Convert(OPTIONS, reg.defs, {}, s), JInt(i))
  {
    AcceptedParts(reg, s, JInt(i), 0);
  }

  /** An object node declaring one integer key and giving all others a string schema. */
  predicate DeclaresOne(s: Json, key: string, declared: Json, other: Json) {
    && Simple(s) && GetString(s, "$ref").None? && GetString(s, "type") == Some("object") && Get(s, "items").None?
    && GetObject(s, "properties") == Some(map[key := declared]) && Get(s, "additionalProperties") == Some(other)
    && Scalar(declared, "integer") && Scalar(other, "string")
  }

  lemma DeclaredAccepted(reg: Registry, s: Json, key: string, declared: Json, other: Json, i: int)
    requires NothingElse(reg)
    requires DeclaresOne(s, key, declared, other)
    ensures Eval(reg, s, JObject(map[key := JInt(i)]), 0) == Accept
  {
    AcceptedParts(reg, declared, JInt(i), 0);
    var v := JObject(map[key := JInt(i)]);
    assert PropertiesVerdict(reg, s, v, 0) == Accept;
    assert AdditionalVerdict(reg, s, v, 0) == Accept;
    AcceptedParts(reg, s, v, 0);
  }

  lemma AttrsOfStringsRejects(defs: Definitions, s: Json, other: Json, key: string, i: int)
    requires Get(s, "additionalProperties") == Some(other) && Scalar(other, "string")
    ensures !Admits(true, ConvertObject(OPTIONS, defs, {}, s), JObject(map[key := JInt(i)]))
  {
    var fields := map[key := JInt(i)];
    assert Convert(OPTIONS, defs, {}, other) == Str;
    assert key in fields && fields[key] == JInt(i);
  }

  /** A schema for undeclared keys replaces the declared properties. */
  lemma DeclaredPropertiesAreLost(reg: Registry, s: Json, key: string, declared: Json, other: Json, i: int)
    requires NothingElse(reg)
    requires DeclaresOne(s, key, declared, other)
    ensures Accepts(reg, s, JObject(map[key := JInt(i)]))
    ensures !Admits(true, Convert(OPTIONS, reg.defs, {}, s), JObject(map[key := JInt(i)]))
  {
    DeclaredAccepted(reg, s, key, declared, other, i);
    ObjectByShape(OPTIONS, reg.defs, {}, s);
    AttrsOfStringsRejects(reg.defs, s, other, key, i);
  }

  /** A node that declares properties, and no type. */
  predicate Untyped(s: Json) {
    && Simple(s) && ByType(s) && Get(s, "type").None?
    && GetObject(s, "properties").Some? && Get(s, "additionalProperties").None?
  }

  /** Without a type, `properties` says nothing about values that are not objects. */
  lemma UntypedPropertiesRejectScalars(reg: Registry, s: Json)
    requires NothingElse(reg)
    requires Untyped(s)
    ensures Accepts(reg, s, JNull)
    ensures !Admits(true, Convert(OPTIONS, reg.defs, {}, s), JNull)
  {
    AcceptedParts(reg, s, JNull, 0);
    ObjectByShape(OPTIONS, reg.defs, {}, s);
  }

  /** Arrays of themselves: `tree` is the definition `s` refers to, and its items are `s` again. */
  predicate Recursive(defs: Definitions, s: Json, path: string, tree: Json) {
    && Simple(s) && Get(s, "type").None? && GetString(s, "$ref") == Some(path)
    && Get(s, "properties").None? && Get(s, "additionalProperties").None? && Get(s, "items").None?
    && RefName(path) in defs && defs[RefName(path)] == tree
    && Simple(tree) && GetString(tree, "$ref").None? && GetString(tree, "type") == Some("array")
    && Get(tree, "properties").None? && Get(tree, "additionalProperties").None? && Get(tree, "items") == Some(s)
  }

  lemma TreeAccepts(reg: Registry, s: Json, path: string, tree: Json, v: Json, fuel: nat)
    requires NothingElse(reg)
    requires Recursive(reg.defs, s, path, tree) && v.JArray?
    requires forall i | 0 <= i < |v.items| :: Eval(reg, s, v.items[i], fuel) == Accept
    ensures Eval(reg, s, v, fuel + 1) == Accept
  {
    AcceptedParts(reg, tree, v, fuel);
    AcceptedParts(reg, s, v, fuel + 1);
  }

  lemma TreeConverts(defs: Definitions, s: Json, path: string, tree: Json)
    requires Recursive(defs, s, path, tree)
    ensures Convert(OPTIONS, defs, {}, s) == ListOf(Attrs)
  {
    var name := RefName(path);
    assert {} + {name} == {name};
    assert Convert(OPTIONS, defs, {name}, s) == ConvertRef(OPTIONS, defs, {name}, path);
    assert Convert(OPTIONS, defs, {name}, tree) == ConvertTyped(OPTIONS, defs, {name}, tree, "array");
    assert Convert(OPTIONS, defs, {}, s) == ConvertRef(OPTIONS, defs, {}, path);
  }

  lemma ListOfAttrsRejects(v: Json)
    requires v.JArray? && v.items == [JArray([])]
    ensures !Admits(true, ListOf(Attrs), v)
  {
    assert !Admits(true, Attrs, v.items[0]);
  }

  /** A definition on a cycle that accepts arrays is cut to `types.attrs`, which accepts none. */
  lemma CyclicArrayIsCut(reg: Registry, s: Json, path: string, tree: Json)
    requires NothingElse(reg)
    requires Recursive(reg.defs, s, path, tree)
    ensures Accepts(reg, s, JArray([JArray([])]))
    ensures !Admits(true, Convert(OPTIONS, reg.defs, {}, s), JArray([JArray([])]))
  {
    TreeAccepts(reg, s, path, tree, JArray([]), 0);
    TreeAccepts(reg, s, path, tree, JArray([JArray([])]), 1);
    TreeConverts(reg.defs, s, path, tree);
    ListOfAttrsRejects(JArray([JArray([])]));
  }

  /** An object node that requires one integer key. */
  predicate RequiresOne(s: Json, key: string, each: Json) {
    && s.JObject? && ByType(s) && GetString(s, "type") == Some("object")
    && GetObject(s, "properties") == Some(map[key := each]) && GetArray(s, "required") == Some([JString(key)])
    && Get(s, "additionalProperties").None? && Get(s, "items").None? && Get(s, "enum").None? && Get(s, "not").None?
    && Get(s, "allOf").None? && Get(s, "oneOf").None? && Get(s, "anyOf").None?
    && Scalar(each, "integer")
  }

  lemma OneString(key: string)
    ensures StringsIn([JString(key)]) == [key]
  {
    assert [JString(key)][1..] == [];
  }

  lemma RequiredAccepted(reg: Registry, s: Json, key: string, each: Json, i: int)
    requires NothingElse(reg)
    requires RequiresOne(s, key, each)
    ensures Eval(reg, s, JObject(map[key := JInt(i)]), 0) == Accept
  {
    var v := JObject(map[key := JInt(i)]);
    OneString(key);
    AcceptedParts(reg, each, JInt(i), 0);
    assert PropertiesVerdict(reg, s, v, 0) == Accept;
    AcceptedParts(reg, s, v, 0);
  }

  lemma MissingIsCaught(defs: Definitions, s: Json, key: string, each: Json, v: Json)
    requires RequiresOne(s, key, each) && v.JObject? && key !in v.fields
    ensures var ty := Convert(OPTIONS, defs, {}, s);
            Head(true, ty, v) && !Admits(true, ty, v)
  {
    ObjectByShape(OPTIONS, defs, {}, s);
    var ty := ConvertObject(OPTIONS, defs, {}, s);
    assert key in ty.options && ty.options[key] == PropertyOption(OPTIONS, defs, {}, s, key);
    OneString(key);
  }

  /** Two such nodes under one `anyOf`, asking for different keys. */
  predicate AsksForEither(s: Json, left: Json, right: Json, leftKey: string, rightKey: string, each: Json) {
    && s.JObject? && GetString(s, "$ref").None? && GetArray(s, "anyOf") == Some([left, right])
    && Get(s, "type").None? && Get(s, "properties").None? && Get(s, "additionalProperties").None?
    && Get(s, "items").None? && Get(s, "enum").None? && Get(s, "required").None?
    && Get(s, "allOf").None? && Get(s, "oneOf").None? && Get(s, "not").None?
    && RequiresOne(left, leftKey, each) && RequiresOne(right, rightKey, each) && leftKey != rightKey
  }

  lemma SecondAccepted(
    reg: Registry, s: Json, left: Json, right: Json, leftKey: string, rightKey: string, each: Json, v: Json)
    requires NothingElse(reg)
    requires AsksForEither(s, left, right, leftKey, rightKey, each)
    requires Eval(reg, right, v, 0) == Accept
    ensures Accepts(reg, s, v)
  {
    var branches := [left, right];
    assert Eval(reg, branches[1], v, 0) in set i | 0 <= i < |branches| :: Eval(reg, branches[i], v, 0);
    assert AnyOfVerdict(reg, s, v, 0) == Accept;
    AcceptedParts(reg, s, v, 0);
  }

  lemma AsksForBoth(defs: Definitions, s: Json, left: Json, right: Json, leftKey: string, rightKey: string, each: Json)
    requires AsksForEither(s, left, right, leftKey, rightKey, each)
    ensures Supported(true, s)
    ensures Convert(OPTIONS, defs, {}, s) == Either(Convert(OPTIONS, defs, {}, left), Convert(OPTIONS, defs, {}, right))
  {
    assert Alternatives(s) == [left, right];
    ChoiceConverts(OPTIONS, defs, {}, s);
    AsksSupported(left, leftKey, each);
    AsksSupported(right, rightKey, each);
  }

  lemma AsksSupported(s: Json, key: string, each: Json)
    requires RequiresOne(s, key, each)
    ensures Supported(true, s)
  {
    assert Supported(true, each);
  }

  lemma IntegerConverts(defs: Definitions, each: Json)
    requires Scalar(each, "integer")
    ensures Convert(OPTIONS, defs, {}, each) == Int
  {}

  lemma RequiredConverts(defs: Definitions, s: Json, key: string, each: Json)
    requires RequiresOne(s, key, each)
    ensures ConvertObject(OPTIONS, defs, {}, s) ==
            Submodule(map[key := PropertyOption(OPTIONS, defs, {}, s, key)], Some(Attrs))
    ensures PropertyOption(OPTIONS, defs, {}, s, key).ty == Int
  {
    OneString(key);
    IntegerConverts(defs, each);
  }

  lemma OneIntegerAdmitted(key: string, option: NixOption, i: int)
    requires option.ty == Int
    ensures Admits(true, Submodule(map[key := option], Some(Attrs)), JObject(map[key := JInt(i)]))
  {}

  /** The type of such a node admits a value that has the key and nothing else. */
  lemma RequiredIsAdmitted(defs: Definitions, s: Json, key: string, each: Json, i: int)
    requires RequiresOne(s, key, each)
    ensures Admits(true, Convert(OPTIONS, defs, {}, s), JObject(map[key := JInt(i)]))
  {
    ObjectByShape(OPTIONS, defs, {}, s);
    RequiredConverts(defs, s, key, each);
    OneIntegerAdmitted(key, PropertyOption(OPTIONS, defs, {}, s, key), i);
  }

  /** What only the second alternative accepts, its type admits, and the type of the first catches and turns away. */
  lemma EarlierAlternativeHides(
    reg: Registry, s: Json, left: Json, right: Json, leftKey: string, rightKey: string, each: Json, i: int)
    requires NothingElse(reg)
    requires AsksForEither(s, left, right, leftKey, rightKey, each)
    ensures Supported(true, s) && Accepts(reg, s, JObject(map[rightKey := JInt(i)]))
    ensures Admits(true, Convert(OPTIONS, reg.defs, {}, right), JObject(map[rightKey := JInt(i)]))
    ensures !Admits(true, Convert(OPTIONS, reg.defs, {}, s), JObject(map[rightKey := JInt(i)]))
  {
    var v := JObject(map[rightKey := JInt(i)]);
    RequiredAccepted(reg, right, rightKey, each, i);
    SecondAccepted(reg, s, left, right, leftKey, rightKey, each, v);
    RequiredIsAdmitted(reg.defs, right, rightKey, each, i);
    MissingIsCaught(reg.defs, left, leftKey, each, v);
    AsksForBoth(reg.defs, s, left, right, leftKey, rightKey, each);
    EitherLosesExactlyTheHidden(true, Convert(OPTIONS, reg.defs, {}, left), Convert(OPTIONS, reg.defs, {}, right), v);
  }

  /** An enumeration of one string and one integer. */
  predicate EnumOfBoth(s: Json, text: string, i: int) {
    && s.JObject? && GetString(s, "$ref").None? && GetString(s, "type") == Some("string") && IntOrString(s)
    && GetArray(s, "enum") == Some([JString(text), JInt(i)])
    && Get(s, "properties").None? && Get(s, "additionalProperties").None? && Get(s, "items").None?
    && Get(s, "required").None? && Get(s, "allOf").None? && Get(s, "oneOf").None? && Get(s, "anyOf").None?
    && Get(s, "not").None?
  }

  /** Only the strings of an `int-or-string` enumeration are kept. */
  lemma EnumLosesItsIntegers(reg: Registry, s: Json, text: string, i: int)
    requires NothingElse(reg)
    requires EnumOfBoth(s, text, i)
    ensures Accepts(reg, s, JInt(i))
    ensures !Admits(true, Convert(OPTIONS, reg.defs, {}, s), JInt(i))
  {
    var values := [JString(text), JInt(i)];
    assert values[1] == JInt(i) && values[0] == JString(text);
    AcceptedParts(reg, s, JInt(i), 0);
    StringsAre(values, text);
  }
}
