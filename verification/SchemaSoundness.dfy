/** The compiled Nix types turn away nothing the OpenAPI schema accepts. */
module SchemaSoundness {
  import opened Prelude
  import opened Json
  import opened JsonSchema
  import opened NixTypes
  import opened SchemaConverter

  // The conversion drops keywords (`allOf` beyond the first, `not`, formats,
  // siblings of `$ref`) and stops unfolding at a name already on its stack, so it
  // can only widen; the schemas for which it instead narrows are named by
  // `Supported` and by the cut-off condition, with witnesses beside them.

  /// The schemas the converter does not narrow

  /** An `int-or-string` enumeration that lists strings and also integers loses its integers. */
  predicate EnumKeepsItsIntegers(s: Json) {
    var values := GetArray(s, "enum");
    values.Some? && StringsIn(values.value) != [] && IntOrString(s) ==> forall v | v in values.value :: !v.JInt?
  }

  predicate OnlyObjectTypes(s: Json) {
    match Get(s, "type")
    case Some(JArray(ts)) => forall t | t in StringsIn(ts) :: t == "object"
    case _ => false
  }

  /**
    Checked over the nodes the converter visits. `anyNumber` is the reading of
    `types.float`; a node with `properties` must say it is an object, and must
    not also give undeclared keys a schema.
   */
  predicate Supported(anyNumber: bool, s: Json)
    decreases s, 1
  {
    if GetString(s, "$ref").Some? then true
    else if FirstOfAll(s).Some? then Supported(anyNumber, FirstOfAll(s).value)
    else if Alternatives(s) != [] then
      var branches := Alternatives(s);
      forall i | 0 <= i < |branches| :: Supported(anyNumber, branches[i])
    else
      match GetString(s, "type")
      case Some("string") => EnumKeepsItsIntegers(s)
      case Some("number") => anyNumber
      case Some("array") => Get(s, "items").Some? ==> Supported(anyNumber, Get(s, "items").value)
      case Some("object") => SupportedObject(anyNumber, s)
      case Some(_) => true
      case None => Get(s, "properties").Some? ==> OnlyObjectTypes(s) && SupportedObject(anyNumber, s)
  }

  predicate SupportedObject(anyNumber: bool, s: Json)
    decreases s, 0
  {
    var additional := Get(s, "additionalProperties");
    var props := GetObject(s, "properties");
    if additional == Some(JBool(true)) then true
    else if additional.Some? && !additional.value.JBool? then
      Declared(s) == {} && Supported(anyNumber, additional.value)
    else props.Some? ==> forall k | k in props.value :: Supported(anyNumber, props.value[k])
  }

  /// Where a conversion stops unfolding

  /** The names a conversion of `s` resolves before it enters any definition. */
  function Follows(s: Json): set<string>
    decreases s, 1
  {
    if GetString(s, "$ref").Some? then {RefName(GetString(s, "$ref").value)}
    else if FirstOfAll(s).Some? then Follows(FirstOfAll(s).value)
    else if Alternatives(s) != [] then
      var branches := Alternatives(s);
      set i, n | 0 <= i < |branches| && n in Follows(branches[i]) :: n
    else if GetString(s, "type") == Some("array") then
      if Get(s, "items").Some? then Follows(Get(s, "items").value) else {}
    else if GetString(s, "type") == Some("object") || GetString(s, "type").None? then FollowsInObject(s)
    else {}
  }

  function FollowsInObject(s: Json): set<string>
    decreases s, 0
  {
    var additional := Get(s, "additionalProperties");
    var props := GetObject(s, "properties");
    if additional == Some(JBool(true)) then {}
    else if additional.Some? && !additional.value.JBool? then Follows(additional.value)
    else if props.None? then {}
    else set k, n | k in props.value && n in Follows(props.value[k]) :: n
  }

  /** Which definitions a conversion enters from which. */
  type Graph = map<string, set<string>>

  function References(defs: Definitions): Graph {
    map n | n in defs :: Follows(defs[n])
  }

  ghost predicate Chain(graph: Graph, path: seq<string>) {
    forall i | 0 <= i < |path| - 1 :: path[i] in graph && path[i + 1] in graph[path[i]]
  }

  /** A way back to `name` along the references. */
  ghost predicate Cycle(graph: Graph, path: seq<string>, name: string) {
    |path| >= 2 && path[0] == name && path[|path| - 1] == name && Chain(graph, path)
  }

  ghost predicate OnCycle(graph: Graph, name: string) {
    exists path :: Cycle(graph, path, name)
  }

  /** The stack is a chain of references, and everything `follows` names is referred to from its top. */
  ghost predicate Entered(graph: Graph, stack: seq<string>, follows: set<string>) {
    && Chain(graph, stack)
    && (stack != [] ==> stack[|stack| - 1] in graph && follows <= graph[stack[|stack| - 1]])
  }

  /** Following a name already on the stack closes a cycle. */
  lemma RevisitIsCycle(graph: Graph, stack: seq<string>, name: string)
    requires Entered(graph, stack, {name}) && name in stack
    ensures OnCycle(graph, name)
  {
    var i :| 0 <= i < |stack| && stack[i] == name;
    var path := stack[i..] + [name];
    forall j | 0 <= j < |path| - 1 ensures path[j] in graph && path[j + 1] in graph[path[j]] {
      assert path[j] == stack[i + j];
      assert j + 1 < |path| - 1 ==> path[j + 1] == stack[i + j + 1];
    }
    assert Cycle(graph, path, name);
  }

  lemma Enter(graph: Graph, stack: seq<string>, name: string)
    requires Entered(graph, stack, {name}) && name in graph && name !in stack
    ensures Entered(graph, stack + [name], graph[name])
  {
    var longer := stack + [name];
    forall i | 0 <= i < |longer| - 1 ensures longer[i] in graph && longer[i + 1] in graph[longer[i]] {
      assert i < |stack| - 1 ==> longer[i + 1] == stack[i + 1];
    }
  }

  lemma EnterShrinks(defined: set<string>, stack: seq<string>, name: string)
    requires name in defined && name !in stack
    ensures Names(stack + [name]) == Names(stack) + {name}
    ensures |defined - Names(stack + [name])| < |defined - Names(stack)|
  {
    var before, after := defined - Names(stack), defined - Names(stack + [name]);
    assert name in before && after == before - {name};
  }

  /** The name accepts nothing but objects. */
  ghost predicate OnlyObjects(reg: Registry, name: string) {
    if name in reg.defs then forall v, fuel: nat :: Eval(reg, reg.defs[name], v, fuel) == Accept ==> v.JObject?
    else forall v :: (name, v) in reg.outside ==> v.JObject?
  }

  /// The theorem, by cases of the conversion

  /** No definition is narrowed, and the names a conversion may stop at accept only objects. */
  ghost predicate Sound(reg: Registry, anyNumber: bool) {
    && (forall n | n in reg.defs :: Supported(anyNumber, reg.defs[n]))
    && (forall n | n !in reg.defs || OnCycle(References(reg.defs), n) :: OnlyObjects(reg, n))
  }

  /** The type the schema converts to admits the value. */
  predicate Covered(
    options: GeneratorOptions, defs: Definitions, anyNumber: bool, visited: set<string>, s: Json, v: Json)
  {
    Admits(anyNumber, Convert(options, defs, visited, s), v)
  }

  lemma {:induction false} Overapproximates(
    reg: Registry, options: GeneratorOptions, anyNumber: bool, stack: seq<string>, s: Json, v: Json, fuel: nat)
    requires Sound(reg, anyNumber)
    requires Entered(References(reg.defs), stack, Follows(s))
    requires Supported(anyNumber, s) && Distinguishable(anyNumber, Convert(options, reg.defs, Names(stack), s))
    requires Eval(reg, s, v, fuel) == Accept
    ensures Covered(options, reg.defs, anyNumber, Names(stack), s, v)
    decreases |References(reg.defs).Keys - Names(stack)|, s, 1
  {
    if !s.JObject? {
      AnythingCovers(options, reg.defs, anyNumber, Names(stack), s, v);
      return;
    }
    AcceptedParts(reg, s, v, fuel);
    if GetString(s, "$ref").Some? {
      RefCovered(reg, options, anyNumber, stack, s, v, fuel);
    } else if FirstOfAll(s).Some? {
      FirstCovered(reg, options, anyNumber, stack, s, v, fuel);
    } else if Alternatives(s) != [] {
      AlternativesOverapproximate(reg, options, anyNumber, stack, s, v, fuel);
    } else {
      TypedOverapproximates(reg, options, anyNumber, stack, s, v, fuel);
    }
  }

  lemma AnythingCovers(
    options: GeneratorOptions, defs: Definitions, anyNumber: bool, visited: set<string>, s: Json, v: Json)
    requires !s.JObject?
    ensures Covered(options, defs, anyNumber, visited, s, v)
  {}

  lemma {:induction false} RefCovered(
    reg: Registry, options: GeneratorOptions, anyNumber: bool, stack: seq<string>, s: Json, v: Json, fuel: nat)
    requires Sound(reg, anyNumber)
    requires Entered(References(reg.defs), stack, Follows(s))
    requires Supported(anyNumber, s) && Distinguishable(anyNumber, Convert(options, reg.defs, Names(stack), s))
    requires GetString(s, "$ref").Some? && RefVerdict(reg, s, v, fuel) == Accept
    ensures Covered(options, reg.defs, anyNumber, Names(stack), s, v)
    decreases |References(reg.defs).Keys - Names(stack)|, s, 0, 3
  {
    var path := GetString(s, "$ref").value;
    RefAccepted(reg, s, v, fuel, path);
    RefConverts(options, reg.defs, Names(stack), s, path);
    RefOverapproximates(reg, options, anyNumber, stack, path, v, fuel);
  }

  lemma {:induction false} FirstCovered(
    reg: Registry, options: GeneratorOptions, anyNumber: bool, stack: seq<string>, s: Json, v: Json, fuel: nat)
    requires Sound(reg, anyNumber)
    requires Entered(References(reg.defs), stack, Follows(s))
    requires Supported(anyNumber, s) && Distinguishable(anyNumber, Convert(options, reg.defs, Names(stack), s))
    requires GetString(s, "$ref").None? && FirstOfAll(s).Some? && AllOfVerdict(reg, s, v, fuel) == Accept
    ensures Covered(options, reg.defs, anyNumber, Names(stack), s, v)
    decreases |References(reg.defs).Keys - Names(stack)|, s, 0, 3
  {
    FirstAccepted(reg, s, v, fuel);
    Overapproximates(reg, options, anyNumber, stack, FirstOfAll(s).value, v, fuel);
  }

  lemma {:induction false} AlternativesOverapproximate(
    reg: Registry, options: GeneratorOptions, anyNumber: bool, stack: seq<string>, s: Json, v: Json, fuel: nat)
    requires Sound(reg, anyNumber)
    requires Entered(References(reg.defs), stack, Follows(s))
    requires Supported(anyNumber, s) && Distinguishable(anyNumber, Convert(options, reg.defs, Names(stack), s))
    requires GetString(s, "$ref").None? && FirstOfAll(s).None? && Alternatives(s) != []
    requires AnyOfVerdict(reg, s, v, fuel) == Accept && OneOfVerdict(reg, s, v, fuel) == Accept
    ensures Covered(options, reg.defs, anyNumber, Names(stack), s, v)
    decreases |References(reg.defs).Keys - Names(stack)|, s, 0, 3
  {
    var i := AlternativeAccepted(reg, s, v, fuel);
    assert Follows(Alternatives(s)[i]) <= Follows(s);
    AlternativesApart(options, reg.defs, anyNumber, Names(stack), s, i);
    Overapproximates(reg, options, anyNumber, stack, Alternatives(s)[i], v, fuel);
    AlternativeAdmits(options, reg.defs, anyNumber, Names(stack), s, i, v);
  }

  /** A node converted by its type. */
  predicate ByType(s: Json) {
    GetString(s, "$ref").None? && FirstOfAll(s).None? && Alternatives(s) == []
  }

  predicate IsArray(s: Json) {
    GetString(s, "type") == Some("array")
  }

  predicate IsObject(s: Json) {
    GetString(s, "type") == Some("object") || (GetString(s, "type").None? && Get(s, "properties").Some?)
  }

  lemma ArrayByType(options: GeneratorOptions, defs: Definitions, visited: set<string>, s: Json)
    requires ByType(s) && IsArray(s)
    ensures Convert(options, defs, visited, s) == ConvertTyped(options, defs, visited, s, "array")
    ensures Get(s, "items").Some? ==> Follows(s) == Follows(Get(s, "items").value)
  {}

  lemma ObjectByShape(options: GeneratorOptions, defs: Definitions, visited: set<string>, s: Json)
    requires ByType(s) && IsObject(s)
    ensures Convert(options, defs, visited, s) == ConvertObject(options, defs, visited, s)
    ensures Follows(s) == FollowsInObject(s)
  {}

  lemma {:induction false} TypedOverapproximates(
    reg: Registry, options: GeneratorOptions, anyNumber: bool, stack: seq<string>, s: Json, v: Json, fuel: nat)
    requires Sound(reg, anyNumber)
    requires Entered(References(reg.defs), stack, Follows(s))
    requires Supported(anyNumber, s) && Distinguishable(anyNumber, Convert(options, reg.defs, Names(stack), s))
    requires s.JObject? && ByType(s) && Eval(reg, s, v, fuel) == Accept
    ensures Covered(options, reg.defs, anyNumber, Names(stack), s, v)
    decreases |References(reg.defs).Keys - Names(stack)|, s, 0, 3
  {
    if IsArray(s) {
      ArrayCovered(reg, options, anyNumber, stack, s, v, fuel);
    } else if IsObject(s) {
      ObjectCovered(reg, options, anyNumber, stack, s, v, fuel);
    } else {
      ScalarCovered(reg, options, anyNumber, stack, s, v, fuel);
    }
  }

  lemma {:induction false} ArrayCovered(
    reg: Registry, options: GeneratorOptions, anyNumber: bool, stack: seq<string>, s: Json, v: Json, fuel: nat)
    requires Sound(reg, anyNumber)
    requires Entered(References(reg.defs), stack, Follows(s))
    requires Supported(anyNumber, s) && Distinguishable(anyNumber, Convert(options, reg.defs, Names(stack), s))
    requires s.JObject? && ByType(s) && IsArray(s) && Eval(reg, s, v, fuel) == Accept
    ensures Covered(options, reg.defs, anyNumber, Names(stack), s, v)
    decreases |References(reg.defs).Keys - Names(stack)|, s, 0, 2
  {
    AcceptedParts(reg, s, v, fuel);
    ArrayByType(options, reg.defs, Names(stack), s);
    ArrayOverapproximates(reg, options, anyNumber, stack, s, v, fuel);
  }

  lemma {:induction false} ObjectCovered(
    reg: Registry, options: GeneratorOptions, anyNumber: bool, stack: seq<string>, s: Json, v: Json, fuel: nat)
    requires Sound(reg, anyNumber)
    requires Entered(References(reg.defs), stack, Follows(s))
    requires Supported(anyNumber, s) && Distinguishable(anyNumber, Convert(options, reg.defs, Names(stack), s))
    requires s.JObject? && ByType(s) && IsObject(s) && Eval(reg, s, v, fuel) == Accept
    ensures Covered(options, reg.defs, anyNumber, Names(stack), s, v)
    decreases |References(reg.defs).Keys - Names(stack)|, s, 0, 2
  {
    AcceptedParts(reg, s, v, fuel);
    ObjectByShape(options, reg.defs, Names(stack), s);
    ObjectOverapproximates(reg, options, anyNumber, stack, s, v, fuel);
  }

  lemma ScalarCovered(
    reg: Registry, options: GeneratorOptions, anyNumber: bool, stack: seq<string>, s: Json, v: Json, fuel: nat)
    requires Sound(reg, anyNumber)
    requires Entered(References(reg.defs), stack, Follows(s))
    requires Supported(anyNumber, s) && Distinguishable(anyNumber, Convert(options, reg.defs, Names(stack), s))
    requires s.JObject? && ByType(s) && !IsArray(s) && !IsObject(s) && Eval(reg, s, v, fuel) == Accept
    ensures Covered(options, reg.defs, anyNumber, Names(stack), s, v)
  {
    AcceptedParts(reg, s, v, fuel);
    if GetString(s, "type").Some? {
      ScalarOverapproximates(options, reg.defs, anyNumber, Names(stack), s, GetString(s, "type").value, v);
    }
  }

  lemma {:induction false} ArrayOverapproximates(
    reg: Registry, options: GeneratorOptions, anyNumber: bool, stack: seq<string>, s: Json, v: Json, fuel: nat)
    requires Sound(reg, anyNumber)
    requires GetString(s, "type") == Some("array") && Get(s, "items").Some? ==> Supported(anyNumber, Get(s, "items").value)
    requires Get(s, "items").Some? ==> Entered(References(reg.defs), stack, Follows(Get(s, "items").value))
    requires Distinguishable(anyNumber, ConvertTyped(options, reg.defs, Names(stack), s, "array"))
    requires GetString(s, "type") == Some("array") && TypeHolds(s, v) && ItemsVerdict(reg, s, v, fuel) == Accept
    ensures Admits(anyNumber, ConvertTyped(options, reg.defs, Names(stack), s, "array"), v)
    decreases |References(reg.defs).Keys - Names(stack)|, s, 0, 1
  {
    assert v.JArray?;
    if Get(s, "items").Some? {
      var each := Get(s, "items").value;
      forall i | 0 <= i < |v.items| ensures Admits(anyNumber, Convert(options, reg.defs, Names(stack), each), v.items[i]) {
        ItemAccepted(reg, s, v, fuel, i);
        Overapproximates(reg, options, anyNumber, stack, each, v.items[i], fuel);
      }
    }
  }

  lemma ScalarOverapproximates(
    options: GeneratorOptions, defs: Definitions, anyNumber: bool, visited: set<string>, s: Json, t: string, v: Json)
    requires GetString(s, "type") == Some(t) && t != "array" && t != "object"
    requires t == "number" ==> anyNumber
    requires t == "string" ==> EnumKeepsItsIntegers(s)
    requires TypeHolds(s, v) && EnumHolds(s, v)
    ensures Admits(anyNumber, ConvertTyped(options, defs, visited, s, t), v)
  {
    if t == "string" {
      StringOverapproximates(s, v, anyNumber);
    } else {
      assert HasType(t, v);
    }
  }

  lemma FirstAccepted(reg: Registry, s: Json, v: Json, fuel: nat)
    requires FirstOfAll(s).Some? && AllOfVerdict(reg, s, v, fuel) == Accept
    ensures Eval(reg, FirstOfAll(s).value, v, fuel) == Accept
  {
    var branches := GetArray(s, "allOf").value;
    assert Eval(reg, branches[0], v, fuel) in set i | 0 <= i < |branches| :: Eval(reg, branches[i], v, fuel);
  }

  lemma AlternativeAccepted(reg: Registry, s: Json, v: Json, fuel: nat) returns (i: nat)
    requires Alternatives(s) != []
    requires AnyOfVerdict(reg, s, v, fuel) == Accept && OneOfVerdict(reg, s, v, fuel) == Accept
    ensures i < |Alternatives(s)| && Eval(reg, Alternatives(s)[i], v, fuel) == Accept
  {
    var branches := Alternatives(s);
    if GetArray(s, "oneOf").Some? {
      var vs := seq(|branches|, j requires 0 <= j < |branches| => Eval(reg, branches[j], v, fuel));
      i :| OnlyAt(vs, i);
    } else {
      i :| 0 <= i < |branches| && Eval(reg, branches[i], v, fuel) == Accept;
    }
  }

  lemma ChoiceConverts(options: GeneratorOptions, defs: Definitions, visited: set<string>, s: Json)
    requires GetString(s, "$ref").None? && FirstOfAll(s).None? && Alternatives(s) != []
    ensures Convert(options, defs, visited, s) == Choice(BranchTypes(options, defs, visited, s))
  {}

  lemma ChoiceApart(anyNumber: bool, types: seq<NixType>, i: nat)
    requires i < |types| && Distinguishable(anyNumber, Choice(types))
    ensures Distinguishable(anyNumber, types[i])
    ensures forall j | 0 <= j < i :: Apart(anyNumber, types[j], types[i])
  {}

  lemma AlternativesApart(
    options: GeneratorOptions, defs: Definitions, anyNumber: bool, visited: set<string>, s: Json, i: nat)
    requires GetString(s, "$ref").None? && FirstOfAll(s).None? && i < |Alternatives(s)|
    requires Distinguishable(anyNumber, Convert(options, defs, visited, s))
    ensures Distinguishable(anyNumber, Convert(options, defs, visited, Alternatives(s)[i]))
    ensures var types := BranchTypes(options, defs, visited, s);
            forall j | 0 <= j < i :: Apart(anyNumber, types[j], types[i])
  {
    ChoiceConverts(options, defs, visited, s);
    ChoiceApart(anyNumber, BranchTypes(options, defs, visited, s), i);
  }

  lemma ChoiceAdmits(anyNumber: bool, types: seq<NixType>, i: nat, v: Json)
    requires i < |types| && Admits(anyNumber, types[i], v)
    requires forall j | 0 <= j < i :: Apart(anyNumber, types[j], types[i])
    ensures Admits(anyNumber, Choice(types), v)
  {
    AlternativeIsReached(anyNumber, types, i, v);
  }

  lemma AlternativeAdmits(
    options: GeneratorOptions, defs: Definitions, anyNumber: bool, visited: set<string>, s: Json, i: nat, v: Json)
    requires GetString(s, "$ref").None? && FirstOfAll(s).None? && i < |Alternatives(s)|
    requires Distinguishable(anyNumber, Convert(options, defs, visited, s))
    requires Admits(anyNumber, Convert(options, defs, visited, Alternatives(s)[i]), v)
    ensures Covered(options, defs, anyNumber, visited, s, v)
  {
    AlternativesApart(options, defs, anyNumber, visited, s, i);
    ChoiceConverts(options, defs, visited, s);
    ChoiceAdmits(anyNumber, BranchTypes(options, defs, visited, s), i, v);
  }

  lemma StringOverapproximates(s: Json, v: Json, anyNumber: bool)
    requires s.JObject? && GetString(s, "type") == Some("string")
    requires EnumKeepsItsIntegers(s) && TypeHolds(s, v) && EnumHolds(s, v)
    ensures Admits(anyNumber, ConvertString(s), v)
  {
    if GetArray(s, "enum").Some? {
      var values := GetArray(s, "enum").value;
      if v.JString? {
        StringsAre(values, v.s);
      }
    }
  }

  /** What the emitted submodule asks of a value, option by option. */
  ghost predicate EachOptionAdmits(
    options: GeneratorOptions, defs: Definitions, anyNumber: bool, visited: set<string>, s: Json, v: Json)
    requires v.JObject? && GetObject(s, "properties").Some?
  {
    var props := GetObject(s, "properties").value;
    forall k | k in props && k in v.fields :: Admits(anyNumber, Convert(options, defs, visited, props[k]), v.fields[k])
  }

  lemma OptionAdmits(
    options: GeneratorOptions, anyNumber: bool, required: bool, propSchema: Json, ty: NixType, v: Json)
    requires Admits(anyNumber, ty, v)
    ensures Admits(anyNumber, OptionFor(options, required, propSchema, ty).ty, v)
  {}

  /** What the emitted submodule asks of one option. */
  predicate OptionHolds(anyNumber: bool, option: NixOption, k: string, v: Json)
    requires v.JObject?
  {
    if k in v.fields then Admits(anyNumber, option.ty, v.fields[k]) else option.default.Some?
  }

  lemma PropertyHolds(
    options: GeneratorOptions, defs: Definitions, anyNumber: bool, visited: set<string>, s: Json, v: Json, k: string)
    requires GetObject(s, "properties").Some? && v.JObject? && RequiredHolds(s, v)
    requires EachOptionAdmits(options, defs, anyNumber, visited, s, v)
    requires k in GetObject(s, "properties").value
    ensures OptionHolds(anyNumber, PropertyOption(options, defs, visited, s, k), k, v)
  {
    var propSchema := GetObject(s, "properties").value[k];
    if k in v.fields {
      OptionAdmits(options, anyNumber, k in Required(s), propSchema, Convert(options, defs, visited, propSchema), v.fields[k]);
    }
  }

  lemma FreeformAdmits(options: GeneratorOptions, anyNumber: bool, opts: map<string, NixOption>, v: Json)
    requires v.JObject? && forall k | k in opts :: OptionHolds(anyNumber, opts[k], k, v)
    ensures Admits(anyNumber, Submodule(opts, FreeformOf(options)), v)
  {}

  lemma SubmoduleAdmits(
    options: GeneratorOptions, defs: Definitions, anyNumber: bool, visited: set<string>, s: Json, v: Json)
    requires GetObject(s, "properties").Some? && v.JObject? && RequiredHolds(s, v)
    requires Get(s, "additionalProperties").Some? ==> Get(s, "additionalProperties").value == JBool(false)
    requires EachOptionAdmits(options, defs, anyNumber, visited, s, v)
    ensures Admits(anyNumber, ConvertObject(options, defs, visited, s), v)
  {
    var ty := ConvertObject(options, defs, visited, s);
    forall k | k in ty.options ensures OptionHolds(anyNumber, ty.options[k], k, v) {
      PropertyHolds(options, defs, anyNumber, visited, s, v, k);
      assert ty.options[k] == PropertyOption(options, defs, visited, s, k);
    }
    FreeformAdmits(options, anyNumber, ty.options, v);
  }

  lemma {:induction false} ObjectOverapproximates(
    reg: Registry, options: GeneratorOptions, anyNumber: bool, stack: seq<string>, s: Json, v: Json, fuel: nat)
    requires Sound(reg, anyNumber)
    requires Entered(References(reg.defs), stack, FollowsInObject(s))
    requires SupportedObject(anyNumber, s)
    requires Distinguishable(anyNumber, ConvertObject(options, reg.defs, Names(stack), s))
    requires v.JObject? && RequiredHolds(s, v)
    requires PropertiesVerdict(reg, s, v, fuel) == Accept && AdditionalVerdict(reg, s, v, fuel) == Accept
    ensures Admits(anyNumber, ConvertObject(options, reg.defs, Names(stack), s), v)
    decreases |References(reg.defs).Keys - Names(stack)|, s, 0, 1
  {
    var additional := Get(s, "additionalProperties");
    var props := GetObject(s, "properties");
    if additional.Some? && !additional.value.JBool? {
      forall k | k in v.fields ensures Admits(anyNumber, Convert(options, reg.defs, Names(stack), additional.value), v.fields[k]) {
        AdditionalAccepted(reg, s, v, fuel, k);
        Overapproximates(reg, options, anyNumber, stack, additional.value, v.fields[k], fuel);
      }
    } else if additional != Some(JBool(true)) && props.Some? {
      EachOptionOverapproximates(reg, options, anyNumber, stack, s, v, fuel);
      SubmoduleAdmits(options, reg.defs, anyNumber, Names(stack), s, v);
    }
  }

  lemma PropertyDistinguishable(
    options: GeneratorOptions, defs: Definitions, anyNumber: bool, visited: set<string>, s: Json, k: string)
    requires Get(s, "additionalProperties").Some? ==> Get(s, "additionalProperties").value == JBool(false)
    requires GetObject(s, "properties").Some? && k in GetObject(s, "properties").value
    requires Distinguishable(anyNumber, ConvertObject(options, defs, visited, s))
    ensures Distinguishable(anyNumber, Convert(options, defs, visited, GetObject(s, "properties").value[k]))
  {
    var ty := ConvertObject(options, defs, visited, s);
    assert ty.options[k] == PropertyOption(options, defs, visited, s, k);
  }

  lemma {:induction false} EachOptionOverapproximates(
    reg: Registry, options: GeneratorOptions, anyNumber: bool, stack: seq<string>, s: Json, v: Json, fuel: nat)
    requires Sound(reg, anyNumber)
    requires Get(s, "additionalProperties").Some? ==> Get(s, "additionalProperties").value == JBool(false)
    requires GetObject(s, "properties").Some? && v.JObject?
    requires Entered(References(reg.defs), stack, FollowsInObject(s))
    requires SupportedObject(anyNumber, s)
    requires Distinguishable(anyNumber, ConvertObject(options, reg.defs, Names(stack), s))
    requires PropertiesVerdict(reg, s, v, fuel) == Accept
    ensures EachOptionAdmits(options, reg.defs, anyNumber, Names(stack), s, v)
    decreases |References(reg.defs).Keys - Names(stack)|, s, 0, 0
  {
    var props := GetObject(s, "properties").value;
    forall k | k in props && k in v.fields
      ensures Admits(anyNumber, Convert(options, reg.defs, Names(stack), props[k]), v.fields[k])
    {
      PropertyAccepted(reg, s, v, fuel, k);
      PropertyDistinguishable(options, reg.defs, anyNumber, Names(stack), s, k);
      assert Follows(props[k]) <= FollowsInObject(s);
      Overapproximates(reg, options, anyNumber, stack, props[k], v.fields[k], fuel);
    }
  }

  /** The value is accepted where the name leads: by its definition, or from outside. */
  ghost predicate NameAccepts(reg: Registry, name: string, v: Json, fuel: nat) {
    if name in reg.defs then fuel > 0 && Eval(reg, reg.defs[name], v, fuel - 1) == Accept
    else (name, v) in reg.outside
  }

  lemma RefAccepted(reg: Registry, s: Json, v: Json, fuel: nat, path: string)
    requires GetString(s, "$ref") == Some(path) && RefVerdict(reg, s, v, fuel) == Accept
    ensures NameAccepts(reg, RefName(path), v, fuel)
  {}

  lemma RefConverts(options: GeneratorOptions, defs: Definitions, visited: set<string>, s: Json, path: string)
    requires GetString(s, "$ref") == Some(path)
    ensures Follows(s) == {RefName(path)}
    ensures Convert(options, defs, visited, s) == ConvertRef(options, defs, visited, path)
  {}

  lemma StopsAtObjects(reg: Registry, anyNumber: bool, stack: seq<string>, name: string, v: Json, fuel: nat)
    requires Sound(reg, anyNumber) && Entered(References(reg.defs), stack, {name})
    requires name in stack || name !in reg.defs
    requires NameAccepts(reg, name, v, fuel)
    ensures v.JObject?
  {
    if name in stack {
      RevisitIsCycle(References(reg.defs), stack, name);
    }
    assert OnlyObjects(reg, name);
  }

  lemma EnterDefinition(defs: Definitions, stack: seq<string>, name: string)
    requires Entered(References(defs), stack, {name})
    requires name in defs && name !in stack
    ensures Entered(References(defs), stack + [name], Follows(defs[name]))
    ensures Names(stack + [name]) == Names(stack) + {name}
    ensures |References(defs).Keys - Names(stack + [name])| < |References(defs).Keys - Names(stack)|
  {
    var graph := References(defs);
    assert name in graph && graph[name] == Follows(defs[name]);
    Enter(graph, stack, name);
    EnterShrinks(graph.Keys, stack, name);
  }

  /** Where a reference leads: to `Attrs` with an object in hand, or into a definition that accepts the value. */
  lemma RefTarget(
    reg: Registry, anyNumber: bool, stack: seq<string>, path: string, v: Json, fuel: nat)
    returns (stops: bool, target: Json, below: nat)
    requires Sound(reg, anyNumber)
    requires Entered(References(reg.defs), stack, {RefName(path)})
    requires NameAccepts(reg, RefName(path), v, fuel)
    ensures stops <==> RefName(path) in stack || RefName(path) !in reg.defs
    ensures stops ==> v.JObject?
    ensures !stops ==> target == reg.defs[RefName(path)] && Eval(reg, target, v, below) == Accept
  {
    var name := RefName(path);
    stops, target, below := name in stack || name !in reg.defs, JNull, 0;
    if stops {
      StopsAtObjects(reg, anyNumber, stack, name, v, fuel);
    } else {
      target, below := reg.defs[name], fuel - 1;
    }
  }

  lemma {:induction false} RefOverapproximates(
    reg: Registry, options: GeneratorOptions, anyNumber: bool, stack: seq<string>, path: string, v: Json, fuel: nat)
    requires Sound(reg, anyNumber)
    requires Entered(References(reg.defs), stack, {RefName(path)})
    requires NameAccepts(reg, RefName(path), v, fuel)
    requires Distinguishable(anyNumber, ConvertRef(options, reg.defs, Names(stack), path))
    ensures Admits(anyNumber, ConvertRef(options, reg.defs, Names(stack), path), v)
    decreases |References(reg.defs).Keys - Names(stack)|, JString(path), 1
  {
    var stops, target, below := RefTarget(reg, anyNumber, stack, path, v, fuel);
    if !stops {
      InDefinition(reg, options, anyNumber, stack, path, target, v, below);
    }
  }

  lemma {:induction false} InDefinition(
    reg: Registry, options: GeneratorOptions, anyNumber: bool, stack: seq<string>, path: string, s: Json, v: Json, fuel: nat)
    requires Sound(reg, anyNumber)
    requires Entered(References(reg.defs), stack, {RefName(path)})
    requires RefName(path) in reg.defs && RefName(path) !in stack && s == reg.defs[RefName(path)]
    requires Distinguishable(anyNumber, Convert(options, reg.defs, Names(stack) + {RefName(path)}, s))
    requires Eval(reg, s, v, fuel) == Accept
    ensures Admits(anyNumber, Convert(options, reg.defs, Names(stack) + {RefName(path)}, s), v)
    decreases |References(reg.defs).Keys - Names(stack)|, JString(path), 0
  {
    EnterDefinition(reg.defs, stack, RefName(path));
    Overapproximates(reg, options, anyNumber, stack + [RefName(path)], s, v, fuel);
  }

  /// The main result

  /** Whatever the schema accepts, the type the compiler returns for it admits. */
  lemma ConversionOverapproximates(reg: Registry, options: GeneratorOptions, anyNumber: bool, s: Json, v: Json)
    requires Supported(anyNumber, s) && Sound(reg, anyNumber)
    requires Distinguishable(anyNumber, Convert(options, reg.defs, {}, s))
    requires Accepts(reg, s, v)
    ensures Admits(anyNumber, Convert(options, reg.defs, {}, s), v)
  {
    var fuel: nat :| Eval(reg, s, v, fuel) == Accept;
    assert Names([]) == {};
    Overapproximates(reg, options, anyNumber, [], s, v, fuel);
  }

  /** Declaring the object type is enough for the condition on cycles. */
  lemma DeclaredObjectIsOnlyObjects(reg: Registry, name: string)
    requires name in reg.defs && GetString(reg.defs[name], "type") == Some("object")
    ensures OnlyObjects(reg, name)
  {
    forall v, fuel: nat | Eval(reg, reg.defs[name], v, fuel) == Accept ensures v.JObject? {
      AcceptedParts(reg, reg.defs[name], v, fuel);
    }
  }

  lemma {:induction false} NeverARef(options: GeneratorOptions, defs: Definitions, visited: set<string>, s: Json)
    ensures NoRef(Convert(options, defs, visited, s))
    decreases |defs.Keys - visited|, s, 1
  {
    if GetString(s, "$ref").Some? {
      var path := GetString(s, "$ref").value;
      RefConverts(options, defs, visited, s, path);
      var name := RefName(path);
      if name in defs && name !in visited {
        PushShrinks(defs, visited, name);
        NeverARef(options, defs, visited + {name}, defs[name]);
      }
    } else if FirstOfAll(s).Some? {
      NeverARef(options, defs, visited, FirstOfAll(s).value);
    } else if Alternatives(s) != [] {
      var branches := Alternatives(s);
      forall i | 0 <= i < |branches| ensures NoRef(Convert(options, defs, visited, branches[i])) {
        NeverARef(options, defs, visited, branches[i]);
      }
    } else {
      TypedNeverARef(options, defs, visited, s);
    }
  }

  lemma {:induction false} TypedNeverARef(options: GeneratorOptions, defs: Definitions, visited: set<string>, s: Json)
    requires ByType(s)
    ensures NoRef(Convert(options, defs, visited, s))
    decreases |defs.Keys - visited|, s, 0, 1
  {
    if IsArray(s) {
      ArrayByType(options, defs, visited, s);
      if Get(s, "items").Some? {
        NeverARef(options, defs, visited, Get(s, "items").value);
      }
    } else if IsObject(s) {
      ObjectByShape(options, defs, visited, s);
      ObjectNeverARef(options, defs, visited, s);
    }
  }

  lemma {:induction false} ObjectNeverARef(options: GeneratorOptions, defs: Definitions, visited: set<string>, s: Json)
    ensures NoRef(ConvertObject(options, defs, visited, s))
    decreases |defs.Keys - visited|, s, 0, 0
  {
    var additional, props := Get(s, "additionalProperties"), GetObject(s, "properties");
    if additional.Some? && !additional.value.JBool? {
      NeverARef(options, defs, visited, additional.value);
    } else if props.Some? {
      forall k | k in props.value ensures NoRef(PropertyOption(options, defs, visited, s, k).ty) {
        NeverARef(options, defs, visited, props.value[k]);
      }
    }
  }
}
