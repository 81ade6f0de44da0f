/** Schemas whose `oneOf` and `anyOf` lose nothing, and one that does. */
module SchemaAlternatives {
  import opened Prelude
  import opened Json
  import opened JsonSchema
  import opened NixTypes
  import opened SchemaConverter
  import opened SchemaSoundness

  // An emitted alternative commits to the first type whose head the value
  // passes, and heads do not look inside objects and lists. `Distinguishable`
  // says when that is no loss; here is what it takes of a document.

  /// Documents whose alternatives are told apart by their kinds

  /** What the type of a node that is converted by its own type admits, by kind. */
  predicate TypedTakes(s: Json, k: Kind) {
    match GetString(s, "type")
    case Some("string") => k == KString || k == KInt
    case Some("integer") => k == KInt
    case Some("number") => k == KFloat || k == KInt
    case Some("boolean") => k == KBool
    case Some("array") => k == KArray
    case Some("object") => k == KObject
    case None => Get(s, "properties").Some? ==> k == KObject
    case _ => true
  }

  /** What it catches without looking inside, and may turn away there. */
  predicate TypedBaits(s: Json, k: Kind) {
    if IsArray(s) then k == KArray else IsObject(s) && ObjectBaits(s, k)
  }

  predicate ObjectBaits(s: Json, k: Kind) {
    var additional := Get(s, "additionalProperties");
    if additional == Some(JBool(true)) then false
    else if additional.Some? && !additional.value.JBool? then k == KObject
    else GetObject(s, "properties").Some? && (k == KObject || k == KString)
  }

  /** The kinds an alternative declares: its own, or those of the definition it refers to. */
  predicate DeclaresToTake(defs: Definitions, s: Json, k: Kind) {
    match GetString(s, "$ref")
    case Some(path) =>
      k == KObject || (RefName(path) in defs && (ByType(defs[RefName(path)]) ==> TypedTakes(defs[RefName(path)], k)))
    case None => ByType(s) ==> TypedTakes(s, k)
  }

  predicate DeclaresToBait(defs: Definitions, s: Json, k: Kind) {
    match GetString(s, "$ref")
    case Some(path) =>
      RefName(path) in defs && (ByType(defs[RefName(path)]) ==> TypedBaits(defs[RefName(path)], k))
    case None => ByType(s) ==> TypedBaits(s, k)
  }

  /**
    The first declares no kind it might turn away that the second declares as
    well: scalars before anything, arrays before what is not an array, objects
    before what is neither an object nor a string.
   */
  predicate KindsApart(defs: Definitions, first: Json, second: Json) {
    forall k: Kind | DeclaresToBait(defs, first, k) :: !DeclaresToTake(defs, second, k)
  }

  /** Over the nodes the converter visits, the kinds of an alternative are apart from those of the later ones. */
  predicate KindsTell(defs: Definitions, s: Json)
    decreases s, 1
  {
    if GetString(s, "$ref").Some? then true
    else if FirstOfAll(s).Some? then KindsTell(defs, FirstOfAll(s).value)
    else if Alternatives(s) != [] then
      var branches := Alternatives(s);
      && (forall i | 0 <= i < |branches| :: KindsTell(defs, branches[i]))
      && (forall i, j | 0 <= i < j < |branches| :: KindsApart(defs, branches[i], branches[j]))
    else if IsArray(s) then Get(s, "items").Some? ==> KindsTell(defs, Get(s, "items").value)
    else IsObject(s) ==> KindsTellInside(defs, s)
  }

  predicate KindsTellInside(defs: Definitions, s: Json)
    decreases s, 0
  {
    var additional := Get(s, "additionalProperties");
    var props := GetObject(s, "properties");
    if additional == Some(JBool(true)) then true
    else if additional.Some? && !additional.value.JBool? then KindsTell(defs, additional.value)
    else props.Some? ==> forall k | k in props.value :: KindsTell(defs, props.value[k])
  }

  predicate DefinitionsTell(defs: Definitions) {
    forall name | name in defs :: KindsTell(defs, defs[name])
  }

  lemma ObjectDeclares(
    options: GeneratorOptions, defs: Definitions, visited: set<string>, s: Json, anyNumber: bool, k: Kind)
    ensures Takes(anyNumber, ConvertObject(options, defs, visited, s), k) ==> k == KObject
    ensures Baits(ConvertObject(options, defs, visited, s), k) ==> ObjectBaits(s, k)
  {}

  lemma StringDeclares(s: Json, anyNumber: bool, k: Kind)
    ensures Takes(anyNumber, ConvertString(s), k) ==> k == KString || k == KInt
    ensures !Baits(ConvertString(s), k)
  {}

  /** The types without anything inside. */
  function Leaf(t: Option<string>): NixType {
    match t
    case Some("integer") => Int
    case Some("number") => Float
    case Some("boolean") => Bool
    case Some("null") => NullOr(Anything)
    case _ => Anything
  }

  lemma LeafByType(options: GeneratorOptions, defs: Definitions, visited: set<string>, s: Json)
    requires ByType(s) && !IsArray(s) && !IsObject(s) && GetString(s, "type") != Some("string")
    ensures Convert(options, defs, visited, s) == Leaf(GetString(s, "type"))
  {}

  lemma StringByType(options: GeneratorOptions, defs: Definitions, visited: set<string>, s: Json)
    requires ByType(s) && GetString(s, "type") == Some("string")
    ensures Convert(options, defs, visited, s) == ConvertString(s)
  {}

  lemma LeafDeclares(s: Json, anyNumber: bool, k: Kind)
    requires !IsArray(s) && !IsObject(s) && GetString(s, "type") != Some("string")
    ensures Takes(anyNumber, Leaf(GetString(s, "type")), k) ==> TypedTakes(s, k)
    ensures !Baits(Leaf(GetString(s, "type")), k)
  {}

  lemma TypedDeclares(
    options: GeneratorOptions, defs: Definitions, visited: set<string>, s: Json, anyNumber: bool, k: Kind)
    requires ByType(s)
    ensures Takes(anyNumber, Convert(options, defs, visited, s), k) ==> TypedTakes(s, k)
    ensures Baits(Convert(options, defs, visited, s), k) ==> TypedBaits(s, k)
  {
    if IsArray(s) {
      ArrayByType(options, defs, visited, s);
    } else if IsObject(s) {
      ObjectByShape(options, defs, visited, s);
      ObjectDeclares(options, defs, visited, s, anyNumber, k);
    } else if GetString(s, "type") == Some("string") {
      StringByType(options, defs, visited, s);
      StringDeclares(s, anyNumber, k);
    } else {
      LeafByType(options, defs, visited, s);
      LeafDeclares(s, anyNumber, k);
    }
  }

  lemma KindsAreDeclared(
    options: GeneratorOptions, defs: Definitions, visited: set<string>, s: Json, anyNumber: bool, k: Kind)
    ensures Takes(anyNumber, Convert(options, defs, visited, s), k) ==> DeclaresToTake(defs, s, k)
    ensures Baits(Convert(options, defs, visited, s), k) ==> DeclaresToBait(defs, s, k)
  {
    if GetString(s, "$ref").Some? {
      var path := GetString(s, "$ref").value;
      RefConverts(options, defs, visited, s, path);
      var name := RefName(path);
      if name in defs && name !in visited && ByType(defs[name]) {
        TypedDeclares(options, defs, visited + {name}, defs[name], anyNumber, k);
      }
    } else if ByType(s) {
      TypedDeclares(options, defs, visited, s, anyNumber, k);
    }
  }

  lemma KindsApartAreApart(
    options: GeneratorOptions, defs: Definitions, visited: set<string>, first: Json, second: Json, anyNumber: bool)
    requires KindsApart(defs, first, second)
    ensures Apart(anyNumber, Convert(options, defs, visited, first), Convert(options, defs, visited, second))
  {
    forall k: Kind | Baits(Convert(options, defs, visited, first), k)
      ensures !Takes(anyNumber, Convert(options, defs, visited, second), k)
    {
      KindsAreDeclared(options, defs, visited, first, anyNumber, k);
      KindsAreDeclared(options, defs, visited, second, anyNumber, k);
    }
  }

  lemma ChoiceDistinguishable(anyNumber: bool, types: seq<NixType>)
    requires forall i | 0 <= i < |types| :: Distinguishable(anyNumber, types[i])
    requires forall i, j | 0 <= i < j < |types| :: Apart(anyNumber, types[i], types[j])
    ensures Distinguishable(anyNumber, Choice(types))
  {}

  lemma {:induction false} KindsTellIsDistinguishable(
    options: GeneratorOptions, defs: Definitions, visited: set<string>, s: Json, anyNumber: bool)
    requires KindsTell(defs, s) && DefinitionsTell(defs)
    ensures Distinguishable(anyNumber, Convert(options, defs, visited, s))
    decreases |defs.Keys - visited|, s, 1
  {
    if GetString(s, "$ref").Some? {
      var path := GetString(s, "$ref").value;
      RefConverts(options, defs, visited, s, path);
      var name := RefName(path);
      if name in defs && name !in visited {
        PushShrinks(defs, visited, name);
        KindsTellIsDistinguishable(options, defs, visited + {name}, defs[name], anyNumber);
      }
    } else if FirstOfAll(s).Some? {
      KindsTellIsDistinguishable(options, defs, visited, FirstOfAll(s).value, anyNumber);
    } else if Alternatives(s) != [] {
      BranchesAreDistinguishable(options, defs, visited, s, anyNumber);
    } else {
      TypedIsDistinguishable(options, defs, visited, s, anyNumber);
    }
  }

  lemma {:induction false} TypedIsDistinguishable(
    options: GeneratorOptions, defs: Definitions, visited: set<string>, s: Json, anyNumber: bool)
    requires ByType(s) && KindsTell(defs, s) && DefinitionsTell(defs)
    ensures Distinguishable(anyNumber, Convert(options, defs, visited, s))
    decreases |defs.Keys - visited|, s, 0, 1
  {
    if IsArray(s) {
      if Get(s, "items").Some? {
        KindsTellIsDistinguishable(options, defs, visited, Get(s, "items").value, anyNumber);
      }
      ArrayIsDistinguishable(options, defs, visited, s, anyNumber);
    } else if IsObject(s) {
      ObjectByShape(options, defs, visited, s);
      ObjectIsDistinguishable(options, defs, visited, s, anyNumber);
    } else {
      LeafIsDistinguishable(options, defs, visited, s, anyNumber);
    }
  }

  lemma LeafIsDistinguishable(
    options: GeneratorOptions, defs: Definitions, visited: set<string>, s: Json, anyNumber: bool)
    requires ByType(s) && !IsArray(s) && !IsObject(s)
    ensures Distinguishable(anyNumber, Convert(options, defs, visited, s))
  {
    if GetString(s, "type") == Some("string") {
      StringByType(options, defs, visited, s);
    } else {
      LeafByType(options, defs, visited, s);
    }
  }

  lemma {:induction false} ArrayIsDistinguishable(
    options: GeneratorOptions, defs: Definitions, visited: set<string>, s: Json, anyNumber: bool)
    requires ByType(s) && IsArray(s)
    requires Get(s, "items").Some? ==> Distinguishable(anyNumber, Convert(options, defs, visited, Get(s, "items").value))
    ensures Distinguishable(anyNumber, Convert(options, defs, visited, s))
  {
    ArrayByType(options, defs, visited, s);
  }

  lemma {:induction false} BranchesAreDistinguishable(
    options: GeneratorOptions, defs: Definitions, visited: set<string>, s: Json, anyNumber: bool)
    requires KindsTell(defs, s) && DefinitionsTell(defs)
    requires GetString(s, "$ref").None? && FirstOfAll(s).None? && Alternatives(s) != []
    ensures Distinguishable(anyNumber, Convert(options, defs, visited, s))
    decreases |defs.Keys - visited|, s, 0, 1
  {
    var branches, types := Alternatives(s), BranchTypes(options, defs, visited, s);
    forall i | 0 <= i < |types| ensures Distinguishable(anyNumber, types[i]) {
      KindsTellIsDistinguishable(options, defs, visited, branches[i], anyNumber);
    }
    forall i, j | 0 <= i < j < |types| ensures Apart(anyNumber, types[i], types[j]) {
      KindsApartAreApart(options, defs, visited, branches[i], branches[j], anyNumber);
    }
    ChoiceDistinguishable(anyNumber, types);
    ChoiceConverts(options, defs, visited, s);
  }

  lemma {:induction false} ObjectIsDistinguishable(
    options: GeneratorOptions, defs: Definitions, visited: set<string>, s: Json, anyNumber: bool)
    requires KindsTellInside(defs, s) && DefinitionsTell(defs)
    ensures Distinguishable(anyNumber, ConvertObject(options, defs, visited, s))
    decreases |defs.Keys - visited|, s, 0, 0
  {
    var additional, props := Get(s, "additionalProperties"), GetObject(s, "properties");
    if additional == Some(JBool(true)) {
    } else if additional.Some? && !additional.value.JBool? {
      KindsTellIsDistinguishable(options, defs, visited, additional.value, anyNumber);
    } else if props.Some? {
      forall k | k in props.value
        ensures Distinguishable(anyNumber, PropertyOption(options, defs, visited, s, k).ty)
      {
        KindsTellIsDistinguishable(options, defs, visited, props.value[k], anyNumber);
      }
    }
  }

  /** For a document of this form, nothing more is asked of its alternatives. */
  lemma KindsTellOverapproximate(reg: Registry, options: GeneratorOptions, anyNumber: bool, s: Json, v: Json)
    requires Supported(anyNumber, s) && Sound(reg, anyNumber)
    requires KindsTell(reg.defs, s) && DefinitionsTell(reg.defs)
    requires Accepts(reg, s, v)
    ensures Admits(anyNumber, Convert(options, reg.defs, {}, s), v)
  {
    KindsTellIsDistinguishable(options, reg.defs, {}, s, anyNumber);
    ConversionOverapproximates(reg, options, anyNumber, s, v);
  }

  /// What an alternative loses

  /** The second alternative admits the value, and the first catches it. */
  predicate Hides(anyNumber: bool, left: NixType, right: NixType, v: Json) {
    Admits(anyNumber, right, v) && Head(anyNumber, left, v) && !Admits(anyNumber, left, v)
  }

  /** What either of two types admits, the alternative admits unless the first hides it from the second. */
  lemma EitherLosesExactlyTheHidden(anyNumber: bool, left: NixType, right: NixType, v: Json)
    ensures Admits(anyNumber, Either(left, right), v) <==>
            (Admits(anyNumber, left, v) || Admits(anyNumber, right, v)) && !Hides(anyNumber, left, right, v)
  {
    if Admits(anyNumber, left, v) {
      AdmittedPassesTheHead(anyNumber, left, v);
    }
    EitherMeans(anyNumber, left, right, v);
  }

  lemma EitherMeans(anyNumber: bool, left: NixType, right: NixType, v: Json)
    ensures Admits(anyNumber, Either(left, right), v) ==
            if Head(anyNumber, left, v) then Admits(anyNumber, left, v) else Admits(anyNumber, right, v)
  {}
}
