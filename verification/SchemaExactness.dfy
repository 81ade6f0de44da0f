/** What the compiled Nix types admit and no more: options, enumerations, and whole schemas. */
module SchemaExactness {
  import opened Prelude
  import opened Json
  import opened JsonSchema
  import opened NixTypes
  import opened SchemaConverter
  import opened SchemaSoundness
  import opened SchemaAlternatives

  // That a type admits what its schema accepts would hold of types that admit
  // everything. Here is the other half: for schemas that say nothing the
  // conversion drops, a value without nulls is admitted only if it is accepted.
  // Nulls are what an optional property gains, and nothing else does.

  /// Options

  /** The node lists the key among its required ones. */
  predicate Requires(s: Json, key: string) {
    GetArray(s, "required").Some? && JString(key) in GetArray(s, "required").value
  }

  lemma RequiredMeans(s: Json, key: string)
    ensures key in Required(s) <==> Requires(s, key)
  {
    if GetArray(s, "required").Some? {
      StringsAre(GetArray(s, "required").value, key);
    }
  }

  lemma NullableMeans(anyNumber: bool, ty: NixType, v: Json)
    ensures Admits(anyNumber, Nullable(ty), v) <==> v.JNull? || Admits(anyNumber, ty, v)
    ensures ty.NullOr? ==> Nullable(ty) == ty
  {}

  /** A default as the value its text stands for. */
  predicate IsDefault(option: NixOption, v: Json) {
    option.default == Some("null") && v == JNull
  }

  /** The options of the submodule are the declared properties. */
  lemma OptionsAreProperties(options: GeneratorOptions, defs: Definitions, visited: set<string>, s: Json)
    requires ByType(s) && IsObject(s) && Convert(options, defs, visited, s).Submodule?
    ensures GetObject(s, "properties").Some?
    ensures Convert(options, defs, visited, s).options.Keys == GetObject(s, "properties").value.Keys
    ensures forall k | k in GetObject(s, "properties").value ::
              Convert(options, defs, visited, s).options[k] == PropertyOption(options, defs, visited, s, k)
    ensures Convert(options, defs, visited, s).freeform == if options.freeformType then Some(Attrs) else None
  {
    ObjectByShape(options, defs, visited, s);
  }

  /**
    A property is required or has a default, which its option admits; and the
    option admits what the property's own type does, and null beside it exactly
    when the property is not required.
   */
  lemma OptionsMean(
    options: GeneratorOptions, defs: Definitions, visited: set<string>, s: Json, anyNumber: bool, k: string, v: Json)
    requires ByType(s) && IsObject(s) && Convert(options, defs, visited, s).Submodule?
    requires k in Convert(options, defs, visited, s).options
    ensures GetObject(s, "properties").Some? && k in GetObject(s, "properties").value
    ensures var option := Convert(options, defs, visited, s).options[k];
            var own := Convert(options, defs, visited, GetObject(s, "properties").value[k]);
            && (option.default.Some? <==> !Requires(s, k))
            && (option.default.Some? ==> IsDefault(option, JNull) && Admits(anyNumber, option.ty, JNull))
            && option.description == (if options.includeDescriptions
                                      then GetString(GetObject(s, "properties").value[k], "description") else None)
            && (Admits(anyNumber, option.ty, v) <==> Admits(anyNumber, own, v) || (!Requires(s, k) && v.JNull?))
  {
    OptionsAreProperties(options, defs, visited, s);
    RequiredMeans(s, k);
    var own := Convert(options, defs, visited, GetObject(s, "properties").value[k]);
    NullableMeans(anyNumber, own, v);
    NullableMeans(anyNumber, own, JNull);
  }

  /// Enumerations

  /** A string node that lists a string admits the listed strings, and nothing else. */
  lemma EnumerationIsExact(
    options: GeneratorOptions, defs: Definitions, visited: set<string>, s: Json, anyNumber: bool, listed: string, v: Json)
    requires ByType(s) && GetString(s, "type") == Some("string")
    requires GetArray(s, "enum").Some? && JString(listed) in GetArray(s, "enum").value
    ensures Admits(anyNumber, Convert(options, defs, visited, s), v) <==> v.JString? && v in GetArray(s, "enum").value
  {
    StringByType(options, defs, visited, s);
    var values := GetArray(s, "enum").value;
    StringsAre(values, listed);
    if v.JString? {
      StringsAre(values, v.s);
    }
  }

  /// Schemas of which nothing is dropped

  predicate NothingTyped(s: Json) {
    && Get(s, "type").None? && Get(s, "enum").None? && Get(s, "required").None? && Get(s, "properties").None?
    && Get(s, "additionalProperties").None? && Get(s, "items").None?
  }

  predicate NoCombinators(s: Json) {
    Get(s, "allOf").None? && Get(s, "anyOf").None? && Get(s, "oneOf").None? && Get(s, "not").None?
  }

  /** A reference, one schema under `allOf`, or alternatives under `anyOf`, with nothing beside it. */
  predicate RefAlone(s: Json) { NothingTyped(s) && NoCombinators(s) }

  predicate FirstAlone(s: Json) {
    && Get(s, "$ref").None? && NothingTyped(s) && Get(s, "anyOf").None? && Get(s, "oneOf").None? && Get(s, "not").None?
    && GetArray(s, "allOf").Some? && |GetArray(s, "allOf").value| == 1
  }

  predicate AnyOfAlone(s: Json) {
    && Get(s, "$ref").None? && NothingTyped(s) && Get(s, "allOf").None? && Get(s, "oneOf").None? && Get(s, "not").None?
  }

  /** No keyword but those of the type, and a type that is one name. */
  predicate TypeAlone(s: Json) {
    && Get(s, "$ref").None? && NoCombinators(s) && (Get(s, "type").Some? ==> GetString(s, "type").Some?)
    && (GetString(s, "type") != Some("string") ==> GetArray(s, "enum").None?)
  }

  /** The key holds an array that is not empty. */
  predicate Listing(s: Json, key: string) {
    GetArray(s, key).Some? && GetArray(s, key).value != []
  }

  lemma WhatIsListed(s: Json)
    requires Get(s, "oneOf").None?
    ensures FirstOfAll(s) == if Listing(s, "allOf") then Some(GetArray(s, "allOf").value[0]) else None
    ensures Alternatives(s) == if Listing(s, "anyOf") then GetArray(s, "anyOf").value else []
  {}

  lemma WhenNothingIsListed(s: Json)
    ensures GetString(s, "$ref").None? && TypeAlone(s) ==> ByType(s)
  {}

  predicate ListsStrings(s: Json) {
    match GetArray(s, "enum")
    case Some(values) => values != [] && forall w | w in values :: w.JString?
    case None => true
  }

  /**
    Over the nodes the converter visits: references are defined and close no
    cycle, and no node says more than its type keeps.
   */
  predicate KeptWhole(defs: Definitions, visited: set<string>, s: Json)
    decreases |defs.Keys - visited|, s, 1
  {
    if !s.JObject? then s != JBool(false)
    else if GetString(s, "$ref").Some? then
      var name := RefName(GetString(s, "$ref").value);
      RefAlone(s) && name in defs && name !in visited &&
      (PushShrinks(defs, visited, name);
       KeptWhole(defs, visited + {name}, defs[name]))
    else if Listing(s, "allOf") then FirstAlone(s) && KeptWhole(defs, visited, GetArray(s, "allOf").value[0])
    else if Listing(s, "anyOf") then
      AnyOfAlone(s) && forall i | 0 <= i < |GetArray(s, "anyOf").value| :: KeptWhole(defs, visited, GetArray(s, "anyOf").value[i])
    else
      TypeAlone(s) &&
      match GetString(s, "type")
      case Some("string") => ListsStrings(s)
      case Some("integer") => true
      case Some("number") => true
      case Some("boolean") => true
      case Some("array") => Get(s, "items").Some? ==> KeptWhole(defs, visited, Get(s, "items").value)
      case Some("object") => ObjectKeptWhole(defs, visited, s)
      case Some(_) => false
      case None => if Get(s, "properties").Some? then ObjectKeptWhole(defs, visited, s) else NothingTyped(s)
  }

  predicate ObjectKeptWhole(defs: Definitions, visited: set<string>, s: Json)
    decreases |defs.Keys - visited|, s, 0
  {
    var additional, props := Get(s, "additionalProperties"), GetObject(s, "properties");
    if props.Some? then
      && additional.None?
      && (forall k | k in props.value :: KeptWhole(defs, visited, props.value[k]))
      && forall k | k in Required(s) :: k in props.value
    else
      && GetArray(s, "required").None?
      && match additional
         case None => true
         case Some(JBool(open)) => open
         case Some(each) => KeptWhole(defs, visited, each)
  }

  predicate NullFree(v: Json) {
    match v
    case JNull => false
    case JArray(items) => forall i | 0 <= i < |items| :: NullFree(items[i])
    case JObject(fields) => forall k | k in fields :: NullFree(fields[k])
    case _ => true
  }

  /// What the type admits, the schema accepts

  /** Enough references to follow for every path below the node. */
  function Fuel(defs: Definitions, visited: set<string>): nat {
    |defs.Keys - visited|
  }

  /** The schema accepts the value within the references there are to follow. */
  ghost predicate Fits(reg: Registry, visited: set<string>, s: Json, v: Json) {
    Eval(reg, s, v, Fuel(reg.defs, visited)) == Accept
  }

  lemma {:induction false} AdmittedFits(
    reg: Registry, options: GeneratorOptions, anyNumber: bool, visited: set<string>, s: Json, v: Json)
    requires NothingElse(reg) && KeptWhole(reg.defs, visited, s) && NullFree(v)
    requires Covered(options, reg.defs, anyNumber, visited, s, v)
    ensures Fits(reg, visited, s, v)
    decreases |reg.defs.Keys - visited|, s, 2
  {
    WhenNothingIsListed(s);
    if !s.JObject? {
    } else if GetString(s, "$ref").Some? {
      RefFits(reg, options, anyNumber, visited, s, v);
    } else if Listing(s, "allOf") {
      FirstFits(reg, options, anyNumber, visited, s, v);
    } else if Listing(s, "anyOf") {
      AlternativesFit(reg, options, anyNumber, visited, s, v);
    } else if IsArray(s) {
      ArrayFits(reg, options, anyNumber, visited, s, v);
    } else if IsObject(s) {
      ObjectFits(reg, options, anyNumber, visited, s, v);
    } else if GetString(s, "type") == Some("string") {
      StringFits(reg, options, anyNumber, visited, s, v);
    } else {
      LeafFits(reg, options, anyNumber, visited, s, v);
    }
  }

  lemma RefMeans(reg: Registry, s: Json, v: Json, fuel: nat)
    requires NothingElse(reg) && s.JObject? && RefAlone(s) && RefVerdict(reg, s, v, fuel) == Accept
    ensures Eval(reg, s, v, fuel) == Accept
  {
    AcceptedParts(reg, s, v, fuel);
  }

  lemma RefEnters(
    options: GeneratorOptions, defs: Definitions, anyNumber: bool, visited: set<string>, s: Json, v: Json)
    requires GetString(s, "$ref").Some?
    requires var name := RefName(GetString(s, "$ref").value); name in defs && name !in visited
    ensures var name := RefName(GetString(s, "$ref").value);
            Covered(options, defs, anyNumber, visited, s, v) == Covered(options, defs, anyNumber, visited + {name}, defs[name], v)
  {
    RefConverts(options, defs, visited, s, GetString(s, "$ref").value);
  }

  /** Entering a definition uses up one reference. */
  lemma OneHop(reg: Registry, visited: set<string>, s: Json, v: Json)
    requires GetString(s, "$ref").Some?
    requires var name := RefName(GetString(s, "$ref").value);
             name in reg.defs && name !in visited && Fits(reg, visited + {name}, reg.defs[name], v)
    ensures RefVerdict(reg, s, v, Fuel(reg.defs, visited)) == Accept
  {
    var name := RefName(GetString(s, "$ref").value);
    assert reg.defs.Keys - visited == (reg.defs.Keys - (visited + {name})) + {name};
  }

  lemma {:induction false} RefFits(
    reg: Registry, options: GeneratorOptions, anyNumber: bool, visited: set<string>, s: Json, v: Json)
    requires NothingElse(reg) && NullFree(v) && s.JObject? && GetString(s, "$ref").Some? && RefAlone(s)
    requires var name := RefName(GetString(s, "$ref").value);
             name in reg.defs && name !in visited && KeptWhole(reg.defs, visited + {name}, reg.defs[name])
    requires Covered(options, reg.defs, anyNumber, visited, s, v)
    ensures Fits(reg, visited, s, v)
    decreases |reg.defs.Keys - visited|, s, 1
  {
    var name := RefName(GetString(s, "$ref").value);
    PushShrinks(reg.defs, visited, name);
    RefEnters(options, reg.defs, anyNumber, visited, s, v);
    AdmittedFits(reg, options, anyNumber, visited + {name}, reg.defs[name], v);
    OneHop(reg, visited, s, v);
    RefMeans(reg, s, v, Fuel(reg.defs, visited));
  }

  lemma FirstMeans(reg: Registry, s: Json, v: Json, fuel: nat)
    requires NothingElse(reg) && s.JObject? && FirstAlone(s)
    requires Eval(reg, GetArray(s, "allOf").value[0], v, fuel) == Accept
    ensures Eval(reg, s, v, fuel) == Accept
  {
    AcceptedParts(reg, s, v, fuel);
  }

  lemma {:induction false} FirstFits(
    reg: Registry, options: GeneratorOptions, anyNumber: bool, visited: set<string>, s: Json, v: Json)
    requires NothingElse(reg) && KeptWhole(reg.defs, visited, s) && NullFree(v)
    requires s.JObject? && GetString(s, "$ref").None? && Listing(s, "allOf")
    requires Covered(options, reg.defs, anyNumber, visited, s, v)
    ensures Fits(reg, visited, s, v)
    decreases |reg.defs.Keys - visited|, s, 1
  {
    WhatIsListed(s);
    AdmittedFits(reg, options, anyNumber, visited, GetArray(s, "allOf").value[0], v);
    FirstMeans(reg, s, v, Fuel(reg.defs, visited));
  }

  /** A choice admits nothing that no alternative admits. */
  lemma ChosenIsAdmitted(anyNumber: bool, types: seq<NixType>, v: Json) returns (i: nat)
    requires types != [] && Admits(anyNumber, Choice(types), v)
    ensures i < |types| && Admits(anyNumber, types[i], v)
  {
    if |types| == 2 {
      i := if Head(anyNumber, types[0], v) then 0 else 1;
    } else {
      i :| 0 <= i < |types| && FirstHead(anyNumber, types, i, v) && Admits(anyNumber, types[i], v);
    }
  }

  lemma AnyOfMeans(reg: Registry, s: Json, v: Json, fuel: nat, i: nat)
    requires NothingElse(reg) && s.JObject? && AnyOfAlone(s) && Listing(s, "anyOf")
    requires i < |GetArray(s, "anyOf").value| && Eval(reg, GetArray(s, "anyOf").value[i], v, fuel) == Accept
    ensures Eval(reg, s, v, fuel) == Accept
  {
    var branches := GetArray(s, "anyOf").value;
    assert Eval(reg, branches[i], v, fuel) in set j | 0 <= j < |branches| :: Eval(reg, branches[j], v, fuel);
    assert AnyOfVerdict(reg, s, v, fuel) == Accept;
    AcceptedParts(reg, s, v, fuel);
  }

  lemma {:induction false} AlternativesFit(
    reg: Registry, options: GeneratorOptions, anyNumber: bool, visited: set<string>, s: Json, v: Json)
    requires NothingElse(reg) && KeptWhole(reg.defs, visited, s) && NullFree(v)
    requires s.JObject? && GetString(s, "$ref").None? && !Listing(s, "allOf") && Listing(s, "anyOf")
    requires Covered(options, reg.defs, anyNumber, visited, s, v)
    ensures Fits(reg, visited, s, v)
    decreases |reg.defs.Keys - visited|, s, 1
  {
    WhatIsListed(s);
    ChoiceConverts(options, reg.defs, visited, s);
    var i := ChosenIsAdmitted(anyNumber, BranchTypes(options, reg.defs, visited, s), v);
    AdmittedFits(reg, options, anyNumber, visited, GetArray(s, "anyOf").value[i], v);
    AnyOfMeans(reg, s, v, Fuel(reg.defs, visited), i);
  }

  /** A node of one type, with nothing listed, is left to its type and what is inside. */
  lemma TypedMeans(reg: Registry, s: Json, v: Json, fuel: nat)
    requires NothingElse(reg) && s.JObject? && TypeAlone(s)
    ensures Eval(reg, s, v, fuel) == Accept <==>
            && TypeHolds(s, v) && EnumHolds(s, v) && RequiredHolds(s, v)
            && PropertiesVerdict(reg, s, v, fuel) == Accept
            && AdditionalVerdict(reg, s, v, fuel) == Accept
            && ItemsVerdict(reg, s, v, fuel) == Accept
  {
    AcceptedParts(reg, s, v, fuel);
  }

  lemma {:induction false} ArrayFits(
    reg: Registry, options: GeneratorOptions, anyNumber: bool, visited: set<string>, s: Json, v: Json)
    requires NothingElse(reg) && TypeAlone(s) && NullFree(v)
    requires s.JObject? && ByType(s) && IsArray(s)
    requires Get(s, "items").Some? ==> KeptWhole(reg.defs, visited, Get(s, "items").value)
    requires Covered(options, reg.defs, anyNumber, visited, s, v)
    ensures Fits(reg, visited, s, v)
    decreases |reg.defs.Keys - visited|, s, 1
  {
    ItemsAdmitted(options, reg.defs, visited, s, anyNumber, v);
    var fuel := Fuel(reg.defs, visited);
    if Get(s, "items").Some? {
      var each := Get(s, "items").value;
      forall i | 0 <= i < |v.items| ensures Eval(reg, each, v.items[i], fuel) == Accept {
        AdmittedFits(reg, options, anyNumber, visited, each, v.items[i]);
      }
    }
    ItemsMean(reg, s, v, fuel);
  }

  lemma ItemsAdmitted(
    options: GeneratorOptions, defs: Definitions, visited: set<string>, s: Json, anyNumber: bool, v: Json)
    requires ByType(s) && IsArray(s) && Covered(options, defs, anyNumber, visited, s, v)
    ensures v.JArray?
    ensures Get(s, "items").Some? ==>
              forall i | 0 <= i < |v.items| :: Covered(options, defs, anyNumber, visited, Get(s, "items").value, v.items[i])
  {
    ArrayByType(options, defs, visited, s);
  }

  lemma ItemsMean(reg: Registry, s: Json, v: Json, fuel: nat)
    requires NothingElse(reg) && s.JObject? && TypeAlone(s) && IsArray(s) && v.JArray?
    requires Get(s, "items").Some? ==>
               forall i | 0 <= i < |v.items| :: Eval(reg, Get(s, "items").value, v.items[i], fuel) == Accept
    ensures Eval(reg, s, v, fuel) == Accept
  {
    TypedMeans(reg, s, v, fuel);
  }

  lemma StringFits(reg: Registry, options: GeneratorOptions, anyNumber: bool, visited: set<string>, s: Json, v: Json)
    requires NothingElse(reg) && s.JObject? && ByType(s) && TypeAlone(s) && ListsStrings(s)
    requires GetString(s, "type") == Some("string")
    requires Covered(options, reg.defs, anyNumber, visited, s, v)
    ensures Fits(reg, visited, s, v)
  {
    if GetArray(s, "enum").Some? {
      var listed := GetArray(s, "enum").value[0];
      assert listed in GetArray(s, "enum").value;
      EnumerationIsExact(options, reg.defs, visited, s, anyNumber, listed.s, v);
    } else {
      StringByType(options, reg.defs, visited, s);
      AnyStringFits(s, anyNumber, v);
    }
    NothingInside(reg, s, v, Fuel(reg.defs, visited));
  }

  lemma AnyStringFits(s: Json, anyNumber: bool, v: Json)
    requires GetString(s, "type") == Some("string") && GetArray(s, "enum").None?
    requires Admits(anyNumber, ConvertString(s), v)
    ensures TypeHolds(s, v) && (v.JString? || v.JInt?)
  {}

  /** On a value that is neither an object nor an array, a typed node asserts its type and its enumeration. */
  lemma NothingInside(reg: Registry, s: Json, v: Json, fuel: nat)
    requires NothingElse(reg) && s.JObject? && TypeAlone(s) && TypeHolds(s, v) && EnumHolds(s, v)
    requires !v.JObject? && !v.JArray?
    ensures Eval(reg, s, v, fuel) == Accept
  {
    TypedMeans(reg, s, v, fuel);
  }

  lemma LeafFits(reg: Registry, options: GeneratorOptions, anyNumber: bool, visited: set<string>, s: Json, v: Json)
    requires NothingElse(reg) && KeptWhole(reg.defs, visited, s)
    requires s.JObject? && ByType(s) && !IsArray(s) && !IsObject(s) && GetString(s, "type") != Some("string")
    requires Covered(options, reg.defs, anyNumber, visited, s, v)
    ensures Fits(reg, visited, s, v)
  {
    LeafByType(options, reg.defs, visited, s);
    TypedMeans(reg, s, v, Fuel(reg.defs, visited));
  }

  lemma {:induction false} ObjectFits(
    reg: Registry, options: GeneratorOptions, anyNumber: bool, visited: set<string>, s: Json, v: Json)
    requires NothingElse(reg) && ObjectKeptWhole(reg.defs, visited, s) && TypeAlone(s) && NullFree(v)
    requires s.JObject? && ByType(s) && IsObject(s)
    requires Covered(options, reg.defs, anyNumber, visited, s, v)
    ensures Fits(reg, visited, s, v)
    decreases |reg.defs.Keys - visited|, s, 1
  {
    ObjectByShape(options, reg.defs, visited, s);
    if GetObject(s, "properties").Some? {
      DeclaredFits(reg, options, anyNumber, visited, s, v);
    } else {
      UndeclaredFits(reg, options, anyNumber, visited, s, v);
    }
  }

  lemma {:induction false} DeclaredFits(
    reg: Registry, options: GeneratorOptions, anyNumber: bool, visited: set<string>, s: Json, v: Json)
    requires NothingElse(reg) && TypeAlone(s) && NullFree(v)
    requires s.JObject? && ByType(s) && IsObject(s) && GetObject(s, "properties").Some?
    requires Get(s, "additionalProperties").None? && forall k | k in Required(s) :: k in GetObject(s, "properties").value
    requires forall k | k in GetObject(s, "properties").value :: KeptWhole(reg.defs, visited, GetObject(s, "properties").value[k])
    requires Covered(options, reg.defs, anyNumber, visited, s, v)
    ensures Fits(reg, visited, s, v)
    decreases |reg.defs.Keys - visited|, s, 0, 1
  {
    RequiredAreThere(options, reg.defs, visited, s, anyNumber, v);
    var props := GetObject(s, "properties").value;
    forall k | k in props && k in v.fields ensures Fits(reg, visited, props[k], v.fields[k]) {
      PropertyFits(reg, options, anyNumber, visited, s, k, v);
    }
    DeclaredMeans(reg, s, v, Fuel(reg.defs, visited));
  }

  lemma {:induction false} PropertyFits(
    reg: Registry, options: GeneratorOptions, anyNumber: bool, visited: set<string>, s: Json, k: string, v: Json)
    requires NothingElse(reg) && NullFree(v) && v.JObject? && k in v.fields
    requires s.JObject? && ByType(s) && IsObject(s) && Get(s, "additionalProperties").None?
    requires GetObject(s, "properties").Some? && k in GetObject(s, "properties").value
    requires KeptWhole(reg.defs, visited, GetObject(s, "properties").value[k])
    requires Covered(options, reg.defs, anyNumber, visited, s, v)
    ensures Fits(reg, visited, GetObject(s, "properties").value[k], v.fields[k])
    decreases |reg.defs.Keys - visited|, s, 0, 0
  {
    PropertyAdmitted(options, reg.defs, visited, s, anyNumber, k, v);
    AdmittedFits(reg, options, anyNumber, visited, GetObject(s, "properties").value[k], v.fields[k]);
  }

  lemma UndeclaredConverts(options: GeneratorOptions, defs: Definitions, visited: set<string>, s: Json)
    requires GetObject(s, "properties").None? && Get(s, "additionalProperties") != Some(JBool(false))
    ensures var additional := Get(s, "additionalProperties");
            ConvertObject(options, defs, visited, s) ==
            if additional.Some? && !additional.value.JBool? then AttrsOf(Convert(options, defs, visited, additional.value))
            else Attrs
  {}

  lemma {:induction false} UndeclaredFits(
    reg: Registry, options: GeneratorOptions, anyNumber: bool, visited: set<string>, s: Json, v: Json)
    requires NothingElse(reg) && ObjectKeptWhole(reg.defs, visited, s) && TypeAlone(s) && NullFree(v)
    requires s.JObject? && GetObject(s, "properties").None? && IsObject(s)
    requires Admits(anyNumber, ConvertObject(options, reg.defs, visited, s), v)
    ensures Fits(reg, visited, s, v)
    decreases |reg.defs.Keys - visited|, s, 0, 1
  {
    UndeclaredConverts(options, reg.defs, visited, s);
    var fuel, additional := Fuel(reg.defs, visited), Get(s, "additionalProperties");
    if additional.Some? && !additional.value.JBool? {
      forall k | k in v.fields ensures Eval(reg, additional.value, v.fields[k], fuel) == Accept {
        AdmittedFits(reg, options, anyNumber, visited, additional.value, v.fields[k]);
      }
    }
    UndeclaredMeans(reg, s, v, fuel);
  }

  lemma PropertyAdmitted(
    options: GeneratorOptions, defs: Definitions, visited: set<string>, s: Json, anyNumber: bool, k: string, v: Json)
    requires ByType(s) && IsObject(s) && Get(s, "additionalProperties").None?
    requires GetObject(s, "properties").Some? && k in GetObject(s, "properties").value
    requires Covered(options, defs, anyNumber, visited, s, v) && NullFree(v)
    ensures v.JObject?
    ensures k in v.fields ==> Covered(options, defs, anyNumber, visited, GetObject(s, "properties").value[k], v.fields[k])
    ensures k !in v.fields ==> !Requires(s, k)
  {
    ObjectByShape(options, defs, visited, s);
    OptionsAreProperties(options, defs, visited, s);
    OptionsMean(options, defs, visited, s, anyNumber, k, if v.JObject? && k in v.fields then v.fields[k] else JNull);
  }

  lemma RequiredAreThere(
    options: GeneratorOptions, defs: Definitions, visited: set<string>, s: Json, anyNumber: bool, v: Json)
    requires ByType(s) && IsObject(s) && Get(s, "additionalProperties").None?
    requires GetObject(s, "properties").Some? && forall k | k in Required(s) :: k in GetObject(s, "properties").value
    requires Covered(options, defs, anyNumber, visited, s, v) && NullFree(v)
    ensures v.JObject? && RequiredHolds(s, v)
  {
    ObjectByShape(options, defs, visited, s);
    forall k | k in Required(s) ensures v.JObject? && k in v.fields {
      RequiredMeans(s, k);
      PropertyAdmitted(options, defs, visited, s, anyNumber, k, v);
    }
  }

  lemma DeclaredMeans(reg: Registry, s: Json, v: Json, fuel: nat)
    requires NothingElse(reg) && s.JObject? && TypeAlone(s) && IsObject(s) && v.JObject?
    requires Get(s, "additionalProperties").None? && RequiredHolds(s, v)
    requires GetObject(s, "properties").Some?
    requires var props := GetObject(s, "properties").value;
             forall k | k in props && k in v.fields :: Eval(reg, props[k], v.fields[k], fuel) == Accept
    ensures Eval(reg, s, v, fuel) == Accept
  {
    TypedMeans(reg, s, v, fuel);
  }

  lemma UndeclaredMeans(reg: Registry, s: Json, v: Json, fuel: nat)
    requires NothingElse(reg) && s.JObject? && TypeAlone(s) && IsObject(s) && v.JObject?
    requires GetObject(s, "properties").None? && GetArray(s, "required").None?
    requires Get(s, "additionalProperties") != Some(JBool(false))
    requires var additional := Get(s, "additionalProperties");
             additional.Some? && !additional.value.JBool? ==>
               forall k | k in v.fields :: Eval(reg, additional.value, v.fields[k], fuel) == Accept
    ensures Eval(reg, s, v, fuel) == Accept
  {
    TypedMeans(reg, s, v, fuel);
  }

  /// Alternatives

  /** Of a `oneOf`, or of an `anyOf` without one, the type admits no value that none of the listed schemas' types admits. */
  lemma AlternativesAdmitNoMore(
    options: GeneratorOptions, defs: Definitions, anyNumber: bool, visited: set<string>, s: Json, key: string, v: Json)
    returns (i: nat)
    requires key == "oneOf" || (key == "anyOf" && Get(s, "oneOf").None?)
    requires GetString(s, "$ref").None? && !Listing(s, "allOf") && Listing(s, key)
    requires Covered(options, defs, anyNumber, visited, s, v)
    ensures i < |GetArray(s, key).value| && Covered(options, defs, anyNumber, visited, GetArray(s, key).value[i], v)
  {
    ChoiceConverts(options, defs, visited, s);
    i := ChosenIsAdmitted(anyNumber, BranchTypes(options, defs, visited, s), v);
  }

  /// The main results

  /** A value without nulls that the type admits, the schema accepts. */
  lemma AdmittedIsAccepted(reg: Registry, options: GeneratorOptions, anyNumber: bool, s: Json, v: Json)
    requires NothingElse(reg) && KeptWhole(reg.defs, {}, s) && NullFree(v)
    requires Admits(anyNumber, Convert(options, reg.defs, {}, s), v)
    ensures Accepts(reg, s, v)
  {
    AdmittedFits(reg, options, anyNumber, {}, s, v);
  }

  /** With nothing dropped and nothing narrowed, the type admits exactly the values without nulls that the schema accepts. */
  lemma ConversionIsExact(reg: Registry, options: GeneratorOptions, anyNumber: bool, s: Json, v: Json)
    requires NothingElse(reg) && KeptWhole(reg.defs, {}, s) && NullFree(v)
    requires Supported(anyNumber, s) && Sound(reg, anyNumber)
    requires Distinguishable(anyNumber, Convert(options, reg.defs, {}, s))
    ensures Admits(anyNumber, Convert(options, reg.defs, {}, s), v) <==> Accepts(reg, s, v)
  {
    if Accepts(reg, s, v) {
      ConversionOverapproximates(reg, options, anyNumber, s, v);
    }
    if Admits(anyNumber, Convert(options, reg.defs, {}, s), v) {
      AdmittedIsAccepted(reg, options, anyNumber, s, v);
    }
  }
}
