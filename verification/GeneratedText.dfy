/**
  From an OpenAPI schema to the text of its Nix type: the text reads back as a
  type that turns away nothing the schema accepts.
 */
module GeneratedText {
  import opened Prelude
  import opened Json
  import opened JsonSchema
  import opened NixTypes
  import opened NixStrings
  import opened NixEmitter
  import opened NixRoundTrip
  import opened SchemaConverter
  import opened SchemaSoundness

  /// Documents the printer can carry

  predicate Returnless(texts: seq<string>) {
    forall i | 0 <= i < |texts| :: '\r' !in texts[i]
  }

  predicate Named(e: Emitter, name: string) {
    NameIsReadable(e.alnum, name) && '\r' !in name
  }

  /** The description the node would give its option, if it is kept and printed. */
  predicate Described(e: Emitter, options: GeneratorOptions, s: Json) {
    var description := GetString(s, "description");
    options.includeDescriptions && e.includeDescriptions && description.Some? ==> PrintableText(e, description.value)
  }

  /**
    Checked over the nodes the converter visits: its property names are ones the
    lexer can read, its enumerations hold no carriage return, and the
    descriptions that get printed are printable.
   */
  predicate Carried(e: Emitter, options: GeneratorOptions, s: Json)
    decreases s, 1
  {
    if GetString(s, "$ref").Some? then true
    else if FirstOfAll(s).Some? then Carried(e, options, FirstOfAll(s).value)
    else if Alternatives(s) != [] then
      var branches := Alternatives(s);
      forall i | 0 <= i < |branches| :: Carried(e, options, branches[i])
    else if IsArray(s) then Get(s, "items").Some? ==> Carried(e, options, Get(s, "items").value)
    else if IsObject(s) then CarriedInside(e, options, s)
    else GetArray(s, "enum").Some? ==> Returnless(StringsIn(GetArray(s, "enum").value))
  }

  predicate CarriedInside(e: Emitter, options: GeneratorOptions, s: Json)
    decreases s, 0
  {
    var additional := Get(s, "additionalProperties");
    var props := GetObject(s, "properties");
    if additional == Some(JBool(true)) then true
    else if additional.Some? && !additional.value.JBool? then Carried(e, options, additional.value)
    else props.Some? ==> forall k | k in props.value ::
           Named(e, k) && Described(e, options, props.value[k]) && Carried(e, options, props.value[k])
  }

  predicate CarriedDefinitions(e: Emitter, options: GeneratorOptions, defs: Definitions) {
    forall name | name in defs :: Carried(e, options, defs[name])
  }

  /// Such documents convert to printable types

  lemma {:induction false} ConvertedIsPrintable(
    e: Emitter, options: GeneratorOptions, defs: Definitions, visited: set<string>, s: Json)
    requires Carried(e, options, s) && CarriedDefinitions(e, options, defs)
    ensures Printable(e, Convert(options, defs, visited, s))
    decreases |defs.Keys - visited|, s, 1
  {
    if GetString(s, "$ref").Some? {
      var path := GetString(s, "$ref").value;
      RefConverts(options, defs, visited, s, path);
      var name := RefName(path);
      if name in defs && name !in visited {
        PushShrinks(defs, visited, name);
        ConvertedIsPrintable(e, options, defs, visited + {name}, defs[name]);
      }
    } else if FirstOfAll(s).Some? {
      ConvertedIsPrintable(e, options, defs, visited, FirstOfAll(s).value);
    } else if Alternatives(s) != [] {
      BranchesArePrintable(e, options, defs, visited, s);
    } else {
      TypedIsPrintable(e, options, defs, visited, s);
    }
  }

  lemma ChoiceIsPrintable(e: Emitter, types: seq<NixType>)
    requires forall i | 0 <= i < |types| :: Printable(e, types[i])
    ensures Printable(e, Choice(types))
  {}

  lemma {:induction false} BranchesArePrintable(
    e: Emitter, options: GeneratorOptions, defs: Definitions, visited: set<string>, s: Json)
    requires Carried(e, options, s) && CarriedDefinitions(e, options, defs)
    requires GetString(s, "$ref").None? && FirstOfAll(s).None? && Alternatives(s) != []
    ensures Printable(e, Convert(options, defs, visited, s))
    decreases |defs.Keys - visited|, s, 0, 2
  {
    var branches, types := Alternatives(s), BranchTypes(options, defs, visited, s);
    forall i | 0 <= i < |types| ensures Printable(e, types[i]) {
      ConvertedIsPrintable(e, options, defs, visited, branches[i]);
    }
    ChoiceIsPrintable(e, types);
    ChoiceConverts(options, defs, visited, s);
  }

  lemma {:induction false} TypedIsPrintable(
    e: Emitter, options: GeneratorOptions, defs: Definitions, visited: set<string>, s: Json)
    requires Carried(e, options, s) && CarriedDefinitions(e, options, defs) && ByType(s)
    ensures Printable(e, Convert(options, defs, visited, s))
    decreases |defs.Keys - visited|, s, 0, 2
  {
    if IsArray(s) {
      ArrayByType(options, defs, visited, s);
      if Get(s, "items").Some? {
        ConvertedIsPrintable(e, options, defs, visited, Get(s, "items").value);
      }
    } else if IsObject(s) {
      ObjectByShape(options, defs, visited, s);
      ObjectIsPrintable(e, options, defs, visited, s);
    } else {
      ScalarIsPrintable(e, options, defs, visited, s);
    }
  }

  lemma ScalarIsPrintable(e: Emitter, options: GeneratorOptions, defs: Definitions, visited: set<string>, s: Json)
    requires Carried(e, options, s) && ByType(s) && !IsArray(s) && !IsObject(s)
    ensures Printable(e, Convert(options, defs, visited, s))
  {
    if GetString(s, "type") == Some("string") {
      assert Convert(options, defs, visited, s) == ConvertString(s);
    }
  }

  predicate PrintableOption(e: Emitter, option: NixOption) {
    Printable(e, option.ty) && PrintableDefault(option.default) && PrintableDescription(e, option.description)
  }

  lemma OptionIsPrintable(e: Emitter, options: GeneratorOptions, required: bool, propSchema: Json, ty: NixType)
    requires Described(e, options, propSchema) && Printable(e, ty)
    ensures PrintableOption(e, OptionFor(options, required, propSchema, ty))
  {}

  lemma {:induction false} PropertyIsPrintable(
    e: Emitter, options: GeneratorOptions, defs: Definitions, visited: set<string>, s: Json, k: string)
    requires CarriedDefinitions(e, options, defs)
    requires GetObject(s, "properties").Some? && k in GetObject(s, "properties").value
    requires var propSchema := GetObject(s, "properties").value[k];
             Described(e, options, propSchema) && Carried(e, options, propSchema)
    ensures PrintableOption(e, PropertyOption(options, defs, visited, s, k))
    decreases |defs.Keys - visited|, s, 0, 0
  {
    var propSchema := GetObject(s, "properties").value[k];
    ConvertedIsPrintable(e, options, defs, visited, propSchema);
    OptionIsPrintable(e, options, k in Required(s), propSchema, Convert(options, defs, visited, propSchema));
  }

  lemma SubmoduleIsPrintable(e: Emitter, options: map<string, NixOption>, freeform: Option<NixType>)
    requires freeform.Some? ==> Printable(e, freeform.value)
    requires forall k | k in options :: Named(e, k) && PrintableOption(e, options[k])
    ensures Printable(e, Submodule(options, freeform))
  {}

  lemma {:induction false} ObjectIsPrintable(
    e: Emitter, options: GeneratorOptions, defs: Definitions, visited: set<string>, s: Json)
    requires CarriedInside(e, options, s) && CarriedDefinitions(e, options, defs)
    ensures Printable(e, ConvertObject(options, defs, visited, s))
    decreases |defs.Keys - visited|, s, 0, 1
  {
    var additional, props := Get(s, "additionalProperties"), GetObject(s, "properties");
    if additional.Some? && !additional.value.JBool? {
      ConvertedIsPrintable(e, options, defs, visited, additional.value);
    } else if props.Some? && additional != Some(JBool(true)) {
      var opts := ConvertObject(options, defs, visited, s).options;
      forall k | k in opts ensures Named(e, k) && PrintableOption(e, opts[k]) {
        PropertyIsPrintable(e, options, defs, visited, s, k);
      }
      SubmoduleIsPrintable(e, opts, FreeformOf(options));
    }
  }

  /// The main results

  /**
    The text generated for a schema is read back as the type it was converted
    to, but for descriptions of several lines, which are read as they are written.
   */
  lemma GeneratedTextReadsBack(e: Emitter, options: GeneratorOptions, defs: Definitions, s: Json)
    requires Alphanumeric(e.alnum) && Carried(e, options, s) && CarriedDefinitions(e, options, defs)
    requires e.includeDescriptions
    ensures var ty := Convert(options, defs, {}, s);
            && ParseType(Emit(e, ty)) == Some((AsRead(e, ty), ""))
            && (OneLineDescriptions(ty) ==> AsRead(e, ty) == ty)
  {
    var ty := Convert(options, defs, {}, s);
    ConvertedIsPrintable(e, options, defs, {}, s);
    NeverARef(options, defs, {}, s);
    TypeReads(e, ty, "");
    if OneLineDescriptions(ty) {
      NothingIsLost(e, ty);
    }
  }

  /**
    The whole compiler, from schema to text: what the schema accepts, the type
    read from the text admits. With or without descriptions.
   */
  lemma GeneratedTextOverapproximates(
    e: Emitter, reg: Registry, options: GeneratorOptions, anyNumber: bool, s: Json, v: Json)
    requires Alphanumeric(e.alnum) && Carried(e, options, s) && CarriedDefinitions(e, options, reg.defs)
    requires Supported(anyNumber, s) && Sound(reg, anyNumber) && Accepts(reg, s, v)
    requires Distinguishable(anyNumber, Convert(options, reg.defs, {}, s))
    ensures var read := ParseType(Emit(e, Convert(options, reg.defs, {}, s)));
            read.Some? && read.value.1 == "" && Admits(anyNumber, read.value.0, v)
  {
    var ty := Convert(options, reg.defs, {}, s);
    ConvertedIsPrintable(e, options, reg.defs, {}, s);
    TypeReads(e, ty, "");
    ConversionOverapproximates(reg, options, anyNumber, s, v);
    ReadTypeAdmitsTheSame(e, anyNumber, ty, v);
  }
}
