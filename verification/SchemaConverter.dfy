/** The OpenAPI to Nix-type compiler of cli/src/codegen/schema.rs. */
module SchemaConverter {
  import opened Prelude
  import opened Json
  import opened JsonSchema
  import opened NixTypes
  import opened Strings
  import Ordering

  // `Convert` is what a conversion returns, as a function of the set of names on
  // the reference stack; the class is the compiler itself, which pushes and pops
  // that stack. The definitions may refer to each other in cycles.

  datatype GeneratorOptions = GeneratorOptions(freeformType: bool, includeDescriptions: bool, excludeGroups: seq<string>)

  type Definitions = map<string, Json>

  /// The conversion as a function

  /** `oneOf`, or `anyOf` when there is no `oneOf` at all; only an array counts. */
  function Alternatives(schema: Json): seq<Json> {
    var chosen := if Get(schema, "oneOf").Some? then GetArray(schema, "oneOf") else GetArray(schema, "anyOf");
    match chosen
    case Some(branches) => branches
    case None => []
  }

  function FirstOfAll(schema: Json): Option<Json> {
    match GetArray(schema, "allOf")
    case Some(branches) => if branches == [] then None else Some(branches[0])
    case None => None
  }

  function ConvertString(schema: Json): NixType {
    var values := match GetArray(schema, "enum") case Some(items) => StringsIn(items) case None => [];
    if values != [] then Enum(values)
    else if IntOrString(schema) then Either(Int, Str)
    else Str
  }

  function Choice(types: seq<NixType>): NixType {
    if |types| == 2 then Either(types[0], types[1]) else OneOf(types)
  }

  function Required(schema: Json): seq<string> {
    match GetArray(schema, "required")
    case Some(items) => StringsIn(items)
    case None => []
  }

  function OptionFor(options: GeneratorOptions, required: bool, propSchema: Json, ty: NixType): NixOption {
    NixOption(
      if required then ty else Nullable(ty),
      if required then None else Some("null"),
      if options.includeDescriptions then GetString(propSchema, "description") else None)
  }

  function FreeformOf(options: GeneratorOptions): Option<NixType> {
    if options.freeformType then Some(Attrs) else None
  }

  lemma PushShrinks(defs: Definitions, visited: set<string>, name: string)
    requires name in defs && name !in visited
    ensures |defs.Keys - (visited + {name})| < |defs.Keys - visited|
  {
    assert defs.Keys - (visited + {name}) == (defs.Keys - visited) - {name};
  }

  function Convert(options: GeneratorOptions, defs: Definitions, visited: set<string>, schema: Json): NixType
    decreases |defs.Keys - visited|, schema, 1
  {
    if GetString(schema, "$ref").Some? then
      ConvertRef(options, defs, visited, GetString(schema, "$ref").value)
    else if FirstOfAll(schema).Some? then
      Convert(options, defs, visited, FirstOfAll(schema).value)
    else if Alternatives(schema) != [] then
      var branches := Alternatives(schema);
      Choice(seq(|branches|, i requires 0 <= i < |branches| => Convert(options, defs, visited, branches[i])))
    else
      match GetString(schema, "type")
      case Some(t) => ConvertTyped(options, defs, visited, schema, t)
      case None =>
        if Get(schema, "properties").Some? then ConvertObject(options, defs, visited, schema) else Anything
  }

  function ConvertTyped(options: GeneratorOptions, defs: Definitions, visited: set<string>, schema: Json, t: string): NixType
    decreases |defs.Keys - visited|, schema, 0, 2
  {
    match t
    case "string" => ConvertString(schema)
    case "integer" => Int
    case "number" => Float
    case "boolean" => Bool
    case "array" =>
      (match Get(schema, "items")
       case Some(each) => ListOf(Convert(options, defs, visited, each))
       case None => ListOf(Anything))
    case "object" => ConvertObject(options, defs, visited, schema)
    case "null" => NullOr(Anything)
    case _ => Anything
  }

  function ConvertObject(options: GeneratorOptions, defs: Definitions, visited: set<string>, schema: Json): NixType
    decreases |defs.Keys - visited|, schema, 0, 1
  {
    var additional := Get(schema, "additionalProperties");
    if additional == Some(JBool(true)) then Attrs
    else if additional.Some? && !additional.value.JBool? then
      AttrsOf(Convert(options, defs, visited, additional.value))
    else
      match GetObject(schema, "properties")
      case None => Attrs
      case Some(props) =>
        Submodule(
          map name | name in props :: PropertyOption(options, defs, visited, schema, name),
          FreeformOf(options))
  }

  function PropertyOption(options: GeneratorOptions, defs: Definitions, visited: set<string>, schema: Json, name: string): NixOption
    requires GetObject(schema, "properties").Some? && name in GetObject(schema, "properties").value
    decreases |defs.Keys - visited|, schema, 0, 0
  {
    var propSchema := GetObject(schema, "properties").value[name];
    OptionFor(options, name in Required(schema), propSchema, Convert(options, defs, visited, propSchema))
  }

  function ConvertRef(options: GeneratorOptions, defs: Definitions, visited: set<string>, path: string): NixType
    decreases |defs.Keys - visited|, JString(path)
  {
    var name := RefName(path);
    if name in visited || name !in defs then Attrs
    else
      PushShrinks(defs, visited, name);
      Convert(options, defs, visited + {name}, defs[name])
  }

  /** What the alternatives convert to, in order. */
  function BranchTypes(options: GeneratorOptions, defs: Definitions, visited: set<string>, schema: Json): seq<NixType> {
    var branches := Alternatives(schema);
    seq(|branches|, i requires 0 <= i < |branches| => Convert(options, defs, visited, branches[i]))
  }

  /// Resources

  datatype GroupVersionKind = GroupVersionKind(group: string, version: string, kind: string)

  datatype Resource = Resource(gvk: GroupVersionKind, spec: Option<NixType>, description: Option<string>)

  /** The first of the kinds a definition says it is, when all three parts are there. */
  function ExtractGvk(schema: Json): Option<GroupVersionKind> {
    match GetArray(schema, "x-kubernetes-group-version-kind")
    case None => None
    case Some(kinds) =>
      if kinds == [] then None
      else
        var group :- GetString(kinds[0], "group");
        var version :- GetString(kinds[0], "version");
        var kind :- GetString(kinds[0], "kind");
        Some(GroupVersionKind(group, version, kind))
  }

  function ResourceKey(gvk: GroupVersionKind): string {
    gvk.group + "/" + gvk.version + "/" + gvk.kind
  }

  /** The schema of the resource's `spec`. */
  function SpecSchema(schema: Json): Option<Json> {
    var properties :- Get(schema, "properties");
    Get(properties, "spec")
  }

  function ResourceOf(options: GeneratorOptions, defs: Definitions, schema: Json, gvk: GroupVersionKind): Resource {
    Resource(
      gvk,
      match SpecSchema(schema) case Some(spec) => Some(Convert(options, defs, {}, spec)) case None => None,
      if options.includeDescriptions then GetString(schema, "description") else None)
  }

  /// The compiler

  function Names(stack: seq<string>): set<string> {
    set name | name in stack
  }

  class SchemaConverter {
    const options: GeneratorOptions
    const definitions: Definitions
    var visitedRefs: seq<string>

    /** The stack holds distinct names of definitions. */
    ghost predicate Valid()
      reads this
    {
      && (forall i, j | 0 <= i < j < |visitedRefs| :: visitedRefs[i] != visitedRefs[j])
      && Names(visitedRefs) <= definitions.Keys
    }

    constructor (options: GeneratorOptions, definitions: Definitions)
      ensures Valid() && visitedRefs == []
      ensures this.options == options && this.definitions == definitions
    {
      this.options, this.definitions, visitedRefs := options, definitions, [];
    }

    method ConvertSchema(schema: Json) returns (ty: NixType)
      requires Valid()
      modifies this
      ensures visitedRefs == old(visitedRefs)
      ensures ty == Convert(options, definitions, Names(visitedRefs), schema)
      decreases |definitions.Keys - Names(visitedRefs)|, schema, 1
    {
      var refPath := GetString(schema, "$ref");
      if refPath.Some? {
        ty := ConvertRefPath(refPath.value);
        return;
      }
      var first := FirstOfAll(schema);
      if first.Some? {
        ty := ConvertSchema(first.value);
        return;
      }
      var branches := Alternatives(schema);
      if branches != [] {
        var types := ConvertBranches(schema, branches);
        ty := Choice(types);
        return;
      }
      ty := ConvertByType(schema);
    }

    method ConvertBranches(schema: Json, branches: seq<Json>) returns (types: seq<NixType>)
      requires Valid() && branches == Alternatives(schema)
      modifies this
      ensures visitedRefs == old(visitedRefs)
      ensures types == BranchTypes(options, definitions, Names(visitedRefs), schema)
      decreases |definitions.Keys - Names(visitedRefs)|, schema, 0, 4
    {
      types := [];
      ghost var visited := Names(visitedRefs);
      for i := 0 to |branches|
        invariant visitedRefs == old(visitedRefs)
        invariant |types| == i
        invariant forall j | 0 <= j < i :: types[j] == Convert(options, definitions, visited, branches[j])
      {
        var branch := ConvertSchema(branches[i]);
        types := types + [branch];
      }
    }

    method ConvertResource(schema: Json, gvk: GroupVersionKind) returns (resource: Resource)
      requires Valid() && visitedRefs == []
      modifies this
      ensures visitedRefs == []
      ensures resource == ResourceOf(options, definitions, schema, gvk)
    {
      assert Names([]) == {};
      var description := if options.includeDescriptions then GetString(schema, "description") else None;
      var spec := SpecSchema(schema);
      if spec.None? {
        return Resource(gvk, None, description);
      }
      var ty := ConvertSchema(spec.value);
      resource := Resource(gvk, Some(ty), description);
    }

    method ConvertByType(schema: Json) returns (ty: NixType)
      requires Valid()
      requires GetString(schema, "$ref").None? && FirstOfAll(schema).None? && Alternatives(schema) == []
      modifies this
      ensures visitedRefs == old(visitedRefs)
      ensures ty == Convert(options, definitions, Names(visitedRefs), schema)
      decreases |definitions.Keys - Names(visitedRefs)|, schema, 0, 3
    {
      match GetString(schema, "type")
      case Some("string") => ty := ConvertString(schema);
      case Some("integer") => ty := Int;
      case Some("number") => ty := Float;
      case Some("boolean") => ty := Bool;
      case Some("array") => ty := ConvertArraySchema(schema);
      case Some("object") => ty := ConvertObjectSchema(schema);
      case Some("null") => ty := NullOr(Anything);
      case None =>
        if Get(schema, "properties").Some? {
          ty := ConvertObjectSchema(schema);
        } else {
          ty := Anything;
        }
      case _ => ty := Anything;
    }

    method ConvertArraySchema(schema: Json) returns (ty: NixType)
      requires Valid()
      modifies this
      ensures visitedRefs == old(visitedRefs)
      ensures ty == ConvertTyped(options, definitions, Names(visitedRefs), schema, "array")
      decreases |definitions.Keys - Names(visitedRefs)|, schema, 0, 2
    {
      var inner := Anything;
      if Get(schema, "items").Some? {
        inner := ConvertSchema(Get(schema, "items").value);
      }
      ty := ListOf(inner);
    }

    method ConvertObjectSchema(schema: Json) returns (ty: NixType)
      requires Valid()
      modifies this
      ensures visitedRefs == old(visitedRefs)
      ensures ty == ConvertObject(options, definitions, Names(visitedRefs), schema)
      decreases |definitions.Keys - Names(visitedRefs)|, schema, 0, 2
    {
      var additional := Get(schema, "additionalProperties");
      if additional.Some? {
        if additional.value.JBool? {
          if additional.value.b {
            return Attrs;
          }
        } else {
          var valueType := ConvertSchema(additional.value);
          return AttrsOf(valueType);
        }
      }
      var properties := GetObject(schema, "properties");
      if properties.None? {
        return Attrs;
      }
      var opts := ConvertProperties(schema, properties.value);
      ty := Submodule(opts, FreeformOf(options));
    }

    method ConvertProperties(schema: Json, props: map<string, Json>) returns (opts: map<string, NixOption>)
      requires Valid()
      requires GetObject(schema, "properties") == Some(props)
      modifies this
      ensures visitedRefs == old(visitedRefs)
      ensures opts == map name | name in props ::
                        PropertyOption(options, definitions, Names(visitedRefs), schema, name)
      decreases |definitions.Keys - Names(visitedRefs)|, schema, 0, 1
    {
      ghost var visited := Names(visitedRefs);
      opts := map[];
      var pending := props.Keys;
      while pending != {}
        invariant pending <= props.Keys && opts.Keys == props.Keys - pending
        invariant visitedRefs == old(visitedRefs)
        invariant forall name | name in opts ::
                    opts[name] == PropertyOption(options, definitions, visited, schema, name)
        decreases pending
      {
        var name :| name in pending;
        var option := ConvertProperty(schema, name);
        opts := opts[name := option];
        pending := pending - {name};
      }
    }

    method ConvertProperty(schema: Json, name: string) returns (option: NixOption)
      requires Valid()
      requires GetObject(schema, "properties").Some? && name in GetObject(schema, "properties").value
      modifies this
      ensures visitedRefs == old(visitedRefs)
      ensures option == PropertyOption(options, definitions, Names(visitedRefs), schema, name)
      decreases |definitions.Keys - Names(visitedRefs)|, schema, 0, 0
    {
      var propSchema := GetObject(schema, "properties").value[name];
      var propType := ConvertSchema(propSchema);
      option := OptionFor(options, name in Required(schema), propSchema, propType);
    }

    method ConvertRefPath(path: string) returns (ty: NixType)
      requires Valid()
      modifies this
      ensures visitedRefs == old(visitedRefs)
      ensures ty == ConvertRef(options, definitions, Names(visitedRefs), path)
      decreases |definitions.Keys - Names(visitedRefs)|, JString(path)
    {
      var name := RefName(path);
      if name in visitedRefs || name !in definitions {
        return Attrs;
      }
      PushShrinks(definitions, Names(visitedRefs), name);
      visitedRefs := visitedRefs + [name];
      assert Names(visitedRefs) == Names(old(visitedRefs)) + {name};
      ty := ConvertSchema(definitions[name]);
      visitedRefs := visitedRefs[..|visitedRefs| - 1];
    }
  }

  /// The whole document

  predicate ShouldSkip(options: GeneratorOptions, name: string) {
    exists excluded | excluded in options.excludeGroups :: Contains(name, excluded)
  }

  /** What the document generates: a type for each definition, and its resources by group, version and kind. */
  datatype TypeSet = TypeSet(definitions: map<string, NixType>, resources: map<string, Resource>)

  const NOTHING_GENERATED := TypeSet(map[], map[])

  /** The type set once one more definition is through. */
  function Generate(options: GeneratorOptions, defs: Definitions, so: TypeSet, name: string): TypeSet
    requires name in defs
  {
    if ShouldSkip(options, name) then so
    else
      var schema := defs[name];
      TypeSet(
        so.definitions[name := Convert(options, defs, {}, schema)],
        match ExtractGvk(schema)
        case Some(gvk) => so.resources[ResourceKey(gvk) := ResourceOf(options, defs, schema, gvk)]
        case None => so.resources)
  }

  function GenerateAll(options: GeneratorOptions, defs: Definitions, names: seq<string>): TypeSet
    requires forall name | name in names :: name in defs
  {
    if names == [] then NOTHING_GENERATED
    else Generate(options, defs, GenerateAll(options, defs, names[..|names| - 1]), names[|names| - 1])
  }

  /** Every definition that is not excluded, converted from an empty stack, in name order. */
  method ConvertOpenApiToTypes(definitions: Definitions, options: GeneratorOptions) returns (types: TypeSet)
    ensures types == GenerateAll(options, definitions, Ordering.Keys(definitions.Keys))
  {
    types := ConvertDefinitions(definitions, options, Ordering.Keys(definitions.Keys));
  }

  method ConvertDefinitions(definitions: Definitions, options: GeneratorOptions, names: seq<string>) returns (types: TypeSet)
    requires forall name | name in names :: name in definitions
    ensures types == GenerateAll(options, definitions, names)
  {
    types := NOTHING_GENERATED;
    var converter := new SchemaConverter(options, definitions);
    assert Names([]) == {};
    for i := 0 to |names|
      invariant fresh(converter) && converter.Valid() && converter.visitedRefs == []
      invariant converter.options == options && converter.definitions == definitions
      invariant types == GenerateAll(options, definitions, names[..i])
    {
      assert names[..i + 1][..i] == names[..i];
      var name := names[i];
      if !ShouldSkip(options, name) {
        var schema := definitions[name];
        var gvk := ExtractGvk(schema);
        if gvk.Some? {
          var resource := converter.ConvertResource(schema, gvk.value);
          types := types.(resources := types.resources[ResourceKey(gvk.value) := resource]);
        }
        var ty := converter.ConvertSchema(schema);
        types := types.(definitions := types.definitions[name := ty]);
      }
    }
    assert names[..|names|] == names;
  }

  /** A definition that names a resource, and is not excluded. */
  predicate Declares(options: GeneratorOptions, defs: Definitions, name: string, key: string) {
    name in defs && !ShouldSkip(options, name)
    && ExtractGvk(defs[name]).Some? && ResourceKey(ExtractGvk(defs[name]).value) == key
  }

  lemma {:induction false} GeneratedTypes(options: GeneratorOptions, defs: Definitions, names: seq<string>)
    requires forall name | name in names :: name in defs
    ensures GenerateAll(options, defs, names).definitions ==
            map name | name in names && !ShouldSkip(options, name) :: Convert(options, defs, {}, defs[name])
  {
    if names != [] {
      GeneratedTypes(options, defs, names[..|names| - 1]);
      assert names == names[..|names| - 1] + [names[|names| - 1]];
    }
  }

  /** A definition is left out exactly when one of the excluded words stands somewhere in its name. */
  lemma SkippedMeans(options: GeneratorOptions, name: string)
    ensures ShouldSkip(options, name) <==>
            exists excluded, i: nat :: excluded in options.excludeGroups && StandsAt(name, excluded, i)
  {
    forall excluded | excluded in options.excludeGroups
      ensures Contains(name, excluded) <==> exists i: nat :: StandsAt(name, excluded, i)
    {
      ContainsMeans(name, excluded);
    }
  }

  predicate IsLastDeclaring(options: GeneratorOptions, defs: Definitions, names: seq<string>, i: int, key: string) {
    && 0 <= i < |names| && Declares(options, defs, names[i], key)
    && forall j | i < j < |names| :: !Declares(options, defs, names[j], key)
  }

  lemma LastDeclaringNext(options: GeneratorOptions, defs: Definitions, names: seq<string>, i: int, key: string)
    requires names != [] && IsLastDeclaring(options, defs, names[..|names| - 1], i, key)
    requires !Declares(options, defs, names[|names| - 1], key)
    ensures IsLastDeclaring(options, defs, names, i, key) && names[i] == names[..|names| - 1][i]
  {
    forall j | i < j < |names| ensures !Declares(options, defs, names[j], key) {
      assert j < |names| - 1 ==> names[j] == names[..|names| - 1][j];
    }
  }

  /** Where the resource under a key comes from: position `i`, if anywhere. */
  lemma {:induction false} GeneratedResource(options: GeneratorOptions, defs: Definitions, names: seq<string>, key: string)
    returns (i: int)
    requires forall name | name in names :: name in defs
    ensures var resources := GenerateAll(options, defs, names).resources;
            if key in resources then
              && IsLastDeclaring(options, defs, names, i, key)
              && resources[key] == ResourceOf(options, defs, defs[names[i]], ExtractGvk(defs[names[i]]).value)
            else forall j | 0 <= j < |names| :: !Declares(options, defs, names[j], key)
  {
    i := 0;
    if names != [] {
      var init, n := names[..|names| - 1], |names| - 1;
      i := GeneratedResource(options, defs, init, key);
      if Declares(options, defs, names[n], key) {
        i := n;
      } else {
        assert forall j | 0 <= j < n :: names[j] == init[j];
        KeyUntouched(options, defs, GenerateAll(options, defs, init), names[n], key);
        if key in GenerateAll(options, defs, init).resources {
          LastDeclaringNext(options, defs, names, i, key);
        }
      }
    }
  }

  lemma KeyUntouched(options: GeneratorOptions, defs: Definitions, so: TypeSet, name: string, key: string)
    requires name in defs && !Declares(options, defs, name, key)
    ensures var after := Generate(options, defs, so, name).resources;
            (key in after <==> key in so.resources) && (key in after ==> after[key] == so.resources[key])
  {}

  /** The resource under a key comes from the last definition in name order that declares it. */
  predicate FromLast(options: GeneratorOptions, defs: Definitions, resource: Resource, key: string, name: string) {
    && Declares(options, defs, name, key)
    && (forall other | other in defs && Declares(options, defs, other, key) :: Ordering.StringLe(other, name))
    && resource == ResourceOf(options, defs, defs[name], ExtractGvk(defs[name]).value)
  }

  lemma LastInOrder(options: GeneratorOptions, defs: Definitions, names: seq<string>, i: int, key: string)
    requires IsLastDeclaring(options, defs, names, i, key)
    requires forall name :: name in names <==> name in defs.Keys
    requires forall i, j | 0 <= i < j < |names| :: Ordering.StringLe(names[i], names[j])
    ensures forall other | other in defs && Declares(options, defs, other, key) :: Ordering.StringLe(other, names[i])
  {
    forall other | other in defs && Declares(options, defs, other, key) ensures Ordering.StringLe(other, names[i]) {
      assert other in names;
      var j :| 0 <= j < |names| && names[j] == other;
      Ordering.StringLeTotal(other, other);
    }
  }

  /** The schema at a path of keys, if every step of it is there. */
  function At(schema: Json, path: seq<string>): Option<Json>
    decreases |path|
  {
    if path == [] then Some(schema)
    else match Get(schema, path[0]) case Some(below) => At(below, path[1..]) case None => None
  }

  /** A definition names a resource exactly when the first of its annotations says all three parts as strings. */
  lemma NamesAResource(schema: Json, group: string, version: string, kind: string)
    ensures ExtractGvk(schema) == Some(GroupVersionKind(group, version, kind)) <==>
            && GetArray(schema, "x-kubernetes-group-version-kind").Some?
            && GetArray(schema, "x-kubernetes-group-version-kind").value != []
            && var first := GetArray(schema, "x-kubernetes-group-version-kind").value[0];
               && Get(first, "group") == Some(JString(group))
               && Get(first, "version") == Some(JString(version))
               && Get(first, "kind") == Some(JString(kind))
  {}

  predicate NoSlash(s: string) { '/' !in s }

  /** Kinds whose version and name hold no slash are kept under different keys. */
  lemma KeysAreOneToOne(a: GroupVersionKind, b: GroupVersionKind)
    requires NoSlash(a.version) && NoSlash(a.kind) && NoSlash(b.version) && NoSlash(b.kind)
    ensures ResourceKey(a) == ResourceKey(b) <==> a == b
  {
    if ResourceKey(a) == ResourceKey(b) {
      SplitsAtLast('/', a.group + "/" + a.version, a.kind, b.group + "/" + b.version, b.kind);
      SplitsAtLast('/', a.group, a.version, b.group, b.version);
    }
  }

  /** A resource has a spec exactly when its definition has a property of that name, and its type is that property's. */
  lemma SpecOfResource(options: GeneratorOptions, defs: Definitions, schema: Json, gvk: GroupVersionKind)
    ensures var resource, spec := ResourceOf(options, defs, schema, gvk), At(schema, ["properties", "spec"]);
            && resource.gvk == gvk
            && (resource.spec.Some? <==> spec.Some?)
            && (spec.Some? ==> resource.spec == Some(Convert(options, defs, {}, spec.value)))
            && (resource.description.Some? ==> options.includeDescriptions
                                               && Get(schema, "description") == Some(JString(resource.description.value)))
            && (options.includeDescriptions && GetString(schema, "description").Some? ==> resource.description.Some?)
  {
    assert ["properties", "spec"][1..] == ["spec"] && ["spec"][1..] == [];
  }

  /** A resource is generated exactly when some definition declares it, and from the last that does. */
  lemma ResourcesAreLastDeclared(options: GeneratorOptions, defs: Definitions, key: string)
    ensures var resources := GenerateAll(options, defs, Ordering.Keys(defs.Keys)).resources;
            if key in resources then exists name :: FromLast(options, defs, resources[key], key, name)
            else forall name :: !Declares(options, defs, name, key)
  {
    LastDeclaredIn(options, defs, Ordering.Keys(defs.Keys), key);
  }

  lemma LastDeclaredIn(options: GeneratorOptions, defs: Definitions, names: seq<string>, key: string)
    requires forall name :: name in names <==> name in defs.Keys
    requires forall i, j | 0 <= i < j < |names| :: Ordering.StringLe(names[i], names[j])
    ensures var resources := GenerateAll(options, defs, names).resources;
            if key in resources then exists name :: FromLast(options, defs, resources[key], key, name)
            else forall name :: !Declares(options, defs, name, key)
  {
    var resources := GenerateAll(options, defs, names).resources;
    var i := GeneratedResource(options, defs, names, key);
    if key in resources {
      LastInOrder(options, defs, names, i, key);
      assert FromLast(options, defs, resources[key], key, names[i]);
    } else {
      forall name | name in defs ensures !Declares(options, defs, name, key) {
        assert name in names;
      }
    }
  }
}
