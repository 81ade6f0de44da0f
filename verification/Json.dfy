/** JSON values. */
module Json {
  import opened Prelude

  datatype Json =
    | JNull
    | JBool(b: bool)
    | JInt(i: int)
    | JFloat(r: real)
    | JString(s: string)
    | JArray(items: seq<Json>)
    | JObject(fields: map<string, Json>)

  /** `value.get(key)`: something only when the value is an object holding the key. */
  function Get(value: Json, key: string): Option<Json> {
    if value.JObject? && key in value.fields then Some(value.fields[key]) else None
  }

  function GetString(value: Json, key: string): Option<string> {
    match Get(value, key)
    case Some(JString(s)) => Some(s)
    case _ => None
  }

  function GetArray(value: Json, key: string): Option<seq<Json>> {
    match Get(value, key)
    case Some(JArray(items)) => Some(items)
    case _ => None
  }

  function GetObject(value: Json, key: string): Option<map<string, Json>> {
    match Get(value, key)
    case Some(JObject(fields)) => Some(fields)
    case _ => None
  }

  /** The strings of an array, in order; everything else is passed over. */
  function StringsIn(items: seq<Json>): seq<string> {
    if items == [] then []
    else if items[0].JString? then [items[0].s] + StringsIn(items[1..])
    else StringsIn(items[1..])
  }

  lemma {:induction false} StringsAre(items: seq<Json>, s: string)
    ensures s in StringsIn(items) <==> JString(s) in items
  {
    if items != [] {
      StringsAre(items[1..], s);
    }
  }

  /** A value of a kind under a key is there exactly when the object holds one. */
  lemma AccessorsMean(value: Json, key: string)
    ensures forall s :: GetString(value, key) == Some(s) <==> Get(value, key) == Some(JString(s))
    ensures forall items :: GetArray(value, key) == Some(items) <==> Get(value, key) == Some(JArray(items))
    ensures forall fields :: GetObject(value, key) == Some(fields) <==> Get(value, key) == Some(JObject(fields))
    ensures forall v :: Get(value, key) == Some(v) <==> value.JObject? && key in value.fields && value.fields[key] == v
  {}

  const DEFINITIONS := "#/definitions/"

  /** The definition a `$ref` names: its path without the definitions prefix, or the whole path. */
  function RefName(path: string): string {
    if DEFINITIONS <= path then path[|DEFINITIONS|..] else path
  }

  /** A reference into the definitions names one of them, and any other text names itself. */
  lemma RefNameMeans(path: string, name: string)
    ensures path == "#/definitions/" + name ==> RefName(path) == name
    ensures !("#/definitions/" <= path) ==> RefName(path) == path
  {
    if path == "#/definitions/" + name {
      assert path[|DEFINITIONS|..] == name;
    }
  }
}
