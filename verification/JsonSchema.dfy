/** What it means for a JSON value to satisfy a schema. */
module JsonSchema {
  import opened Prelude
  import opened Json

  // A schema is itself a JSON value, as both compilers see it. What the
  // applicators assert is in sections 10.2.1 and 10.3 of JSON Schema Core draft
  // 2020-12; `integer` is read as in draft 4, on which OpenAPI 2.0 builds: a
  // number without a fraction. `int-or-string` has its Kubernetes meaning.

  /** `Unknown` is a validation that ran into its bound on nested references. */
  datatype Verdict = Accept | Reject | Unknown

  function Known(ok: bool): Verdict { if ok then Accept else Reject }

  /** Both must accept; either may reject. */
  function Both(a: Verdict, b: Verdict): Verdict {
    if a == Reject || b == Reject then Reject else if a == Unknown || b == Unknown then Unknown else Accept
  }

  ghost function All(vs: set<Verdict>): Verdict {
    if Reject in vs then Reject else if Unknown in vs then Unknown else Accept
  }

  ghost function Any(vs: set<Verdict>): Verdict {
    if Accept in vs then Accept else if Unknown in vs then Unknown else Reject
  }

  ghost predicate OnlyAt(vs: seq<Verdict>, i: nat) {
    i < |vs| && vs[i] == Accept && forall j | 0 <= j < |vs| && j != i :: vs[j] == Reject
  }

  ghost function ExactlyOne(vs: seq<Verdict>): Verdict {
    if exists i :: OnlyAt(vs, i) then Accept
    else if Unknown in vs && !(exists i, j :: 0 <= i < j < |vs| && vs[i] == Accept && vs[j] == Accept) then Unknown
    else Reject
  }

  function Opposite(v: Verdict): Verdict {
    match v
    case Accept => Reject
    case Reject => Accept
    case Unknown => Unknown
  }

  /**
    The definitions `$ref` resolves in, what a name outside them accepts, and
    what the remaining keywords assert: `asserts` relates the plain fields of a
    node (`pattern`, `minimum`, `format` and the like) to the values they let by.
   */
  datatype Registry = Registry(
    defs: map<string, Json>, ghost outside: iset<(string, Json)>, ghost asserts: iset<(map<string, Json>, Json)>)

  /** The fields of a node that hold neither a schema nor a list. */
  function PlainFields(s: Json): map<string, Json>
    requires s.JObject?
  {
    map k | k in s.fields && k != "additionalProperties" && !s.fields[k].JObject? && !s.fields[k].JArray? :: s.fields[k]
  }

  ghost predicate PlainHold(reg: Registry, s: Json, v: Json)
    requires s.JObject?
  {
    (PlainFields(s), v) in reg.asserts
  }

  /** The remaining keywords assert nothing. */
  ghost predicate NothingElse(reg: Registry) {
    forall fields, v :: (fields, v) in reg.asserts
  }

  /**
    Whether `v` satisfies `s`, following at most `fuel` references on any path.
    A value that needs more is `Unknown`.
   */
  ghost function Eval(reg: Registry, s: Json, v: Json, fuel: nat): Verdict
    decreases fuel, s, 2
  {
    if s.JObject? then
      Both(RefVerdict(reg, s, v, fuel),
      Both(Known(TypeHolds(s, v) && EnumHolds(s, v) && RequiredHolds(s, v) && PlainHold(reg, s, v)),
      Both(ObjectVerdict(reg, s, v, fuel),
      Both(ItemsVerdict(reg, s, v, fuel),
           CombinedVerdict(reg, s, v, fuel)))))
    else Known(s != JBool(false))
  }

  ghost function RefVerdict(reg: Registry, s: Json, v: Json, fuel: nat): Verdict
    decreases fuel, s, 0
  {
    match GetString(s, "$ref")
    case None => Accept
    case Some(path) =>
      var name := RefName(path);
      if name !in reg.defs then Known((name, v) in reg.outside)
      else if fuel == 0 then Unknown
      else Eval(reg, reg.defs[name], v, fuel - 1)
  }

  predicate HasType(type_: string, v: Json) {
    match type_
    case "string" => v.JString?
    case "integer" => v.JInt?
    case "number" => v.JInt? || v.JFloat?
    case "boolean" => v.JBool?
    case "array" => v.JArray?
    case "object" => v.JObject?
    case "null" => v.JNull?
    case _ => false
  }

  predicate IntOrString(s: Json) {
    GetString(s, "format") == Some("int-or-string")
  }

  predicate TypeHolds(s: Json, v: Json) {
    match Get(s, "type")
    case Some(JString(t)) => HasType(t, v) || (t == "string" && IntOrString(s) && v.JInt?)
    case Some(JArray(ts)) => exists t | t in StringsIn(ts) :: HasType(t, v)
    case _ => true
  }

  predicate EnumHolds(s: Json, v: Json) {
    var values := GetArray(s, "enum");
    values.Some? ==> v in values.value
  }

  predicate RequiredHolds(s: Json, v: Json) {
    var names := GetArray(s, "required");
    names.Some? && v.JObject? ==> forall name | name in StringsIn(names.value) :: name in v.fields
  }

  ghost function ObjectVerdict(reg: Registry, s: Json, v: Json, fuel: nat): Verdict
    decreases fuel, s, 1
  {
    Both(PropertiesVerdict(reg, s, v, fuel), AdditionalVerdict(reg, s, v, fuel))
  }

  ghost function CombinedVerdict(reg: Registry, s: Json, v: Json, fuel: nat): Verdict
    decreases fuel, s, 1
  {
    Both(Both(AllOfVerdict(reg, s, v, fuel), AnyOfVerdict(reg, s, v, fuel)),
         Both(OneOfVerdict(reg, s, v, fuel), NotVerdict(reg, s, v, fuel)))
  }

  ghost function PropertiesVerdict(reg: Registry, s: Json, v: Json, fuel: nat): Verdict
    decreases fuel, s, 0
  {
    match GetObject(s, "properties")
    case None => Accept
    case Some(props) =>
      if !v.JObject? then Accept
      else All(set k | k in props && k in v.fields :: Eval(reg, props[k], v.fields[k], fuel))
  }

  /** The keys `additionalProperties` leaves alone. */
  function Declared(s: Json): set<string> {
    match GetObject(s, "properties")
    case None => {}
    case Some(props) => props.Keys
  }

  ghost function AdditionalVerdict(reg: Registry, s: Json, v: Json, fuel: nat): Verdict
    decreases fuel, s, 0
  {
    match Get(s, "additionalProperties")
    case None => Accept
    case Some(additional) =>
      if !v.JObject? then Accept
      else All(set k | k in v.fields && k !in Declared(s) :: Eval(reg, additional, v.fields[k], fuel))
  }

  ghost function ItemsVerdict(reg: Registry, s: Json, v: Json, fuel: nat): Verdict
    decreases fuel, s, 0
  {
    match Get(s, "items")
    case None => Accept
    case Some(each) =>
      if !v.JArray? then Accept
      else All(set i | 0 <= i < |v.items| :: Eval(reg, each, v.items[i], fuel))
  }

  ghost function AllOfVerdict(reg: Registry, s: Json, v: Json, fuel: nat): Verdict
    decreases fuel, s, 0
  {
    match GetArray(s, "allOf")
    case None => Accept
    case Some(branches) => All(set i | 0 <= i < |branches| :: Eval(reg, branches[i], v, fuel))
  }

  ghost function AnyOfVerdict(reg: Registry, s: Json, v: Json, fuel: nat): Verdict
    decreases fuel, s, 0
  {
    match GetArray(s, "anyOf")
    case None => Accept
    case Some(branches) => Any(set i | 0 <= i < |branches| :: Eval(reg, branches[i], v, fuel))
  }

  ghost function OneOfVerdict(reg: Registry, s: Json, v: Json, fuel: nat): Verdict
    decreases fuel, s, 0
  {
    match GetArray(s, "oneOf")
    case None => Accept
    case Some(branches) =>
      ExactlyOne(seq(|branches|, i requires 0 <= i < |branches| => Eval(reg, branches[i], v, fuel)))
  }

  ghost function NotVerdict(reg: Registry, s: Json, v: Json, fuel: nat): Verdict
    decreases fuel, s, 0
  {
    match Get(s, "not")
    case None => Accept
    case Some(excluded) => Opposite(Eval(reg, excluded, v, fuel))
  }

  /** A value the schema accepts, at whatever depth of references it takes to see it. */
  ghost predicate Accepts(reg: Registry, s: Json, v: Json) {
    exists fuel: nat :: Eval(reg, s, v, fuel) == Accept
  }

  /// What an accepted value owes each keyword

  lemma AcceptedParts(reg: Registry, s: Json, v: Json, fuel: nat)
    requires s.JObject?
    ensures Eval(reg, s, v, fuel) == Accept <==>
            && RefVerdict(reg, s, v, fuel) == Accept
            && TypeHolds(s, v) && EnumHolds(s, v) && RequiredHolds(s, v) && PlainHold(reg, s, v)
            && PropertiesVerdict(reg, s, v, fuel) == Accept
            && AdditionalVerdict(reg, s, v, fuel) == Accept
            && ItemsVerdict(reg, s, v, fuel) == Accept
            && AllOfVerdict(reg, s, v, fuel) == Accept
            && AnyOfVerdict(reg, s, v, fuel) == Accept
            && OneOfVerdict(reg, s, v, fuel) == Accept
            && NotVerdict(reg, s, v, fuel) == Accept
  {}

  lemma ItemAccepted(reg: Registry, s: Json, v: Json, fuel: nat, i: nat)
    requires ItemsVerdict(reg, s, v, fuel) == Accept
    requires Get(s, "items").Some? && v.JArray? && i < |v.items|
    ensures Eval(reg, Get(s, "items").value, v.items[i], fuel) == Accept
  {
    var each := Get(s, "items").value;
    assert Eval(reg, each, v.items[i], fuel) in set j | 0 <= j < |v.items| :: Eval(reg, each, v.items[j], fuel);
  }

  lemma AdditionalAccepted(reg: Registry, s: Json, v: Json, fuel: nat, k: string)
    requires AdditionalVerdict(reg, s, v, fuel) == Accept
    requires Get(s, "additionalProperties").Some? && v.JObject? && k in v.fields && k !in Declared(s)
    ensures Eval(reg, Get(s, "additionalProperties").value, v.fields[k], fuel) == Accept
  {
    var additional := Get(s, "additionalProperties").value;
    assert Eval(reg, additional, v.fields[k], fuel) in
           set j | j in v.fields && j !in Declared(s) :: Eval(reg, additional, v.fields[j], fuel);
  }

  lemma PropertyAccepted(reg: Registry, s: Json, v: Json, fuel: nat, k: string)
    requires PropertiesVerdict(reg, s, v, fuel) == Accept
    requires GetObject(s, "properties").Some? && v.JObject? && k in v.fields && k in GetObject(s, "properties").value
    ensures Eval(reg, GetObject(s, "properties").value[k], v.fields[k], fuel) == Accept
  {
    var props := GetObject(s, "properties").value;
    assert Eval(reg, props[k], v.fields[k], fuel) in
           set j | j in props && j in v.fields :: Eval(reg, props[j], v.fields[j], fuel);
  }
}
