/**
  Minting a store's values over those it holds (cli/src/commands/secrets.rs) and
  checking that every declared one is there (cli/src/domain/secrets.rs).
 */
module SecretStores {
  import opened Prelude
  import opened Ordering

  datatype SecretKind = ValueKind | CaKind

  datatype ManagedKeyDef = ManagedKeyDef(generator: Option<string>, length: Option<nat>)

  datatype ManagedSecret = ManagedSecret(store: string, kind: SecretKind, keys: map<string, ManagedKeyDef>)

  /** `lab.secrets.managed`: the declared secrets by name. */
  type Managed = map<string, ManagedSecret>

  type StoreValues = map<string, map<string, string>>

  function SecretsIn(managed: Managed, store: string): set<string> {
    set name | name in managed && managed[name].store == store
  }

  const PLACEHOLDER := "PLACEHOLDER_USE_SECRETS_EDIT"
  const CERT_KEY := "ca.crt"
  const KEY_KEY := "ca.key"

  /** A value an operator supplied: neither blank nor the placeholder. */
  predicate Usable(value: string) {
    value != "" && value != PLACEHOLDER
  }

  function Lookup(values: StoreValues, secret: string, key: string): Option<string> {
    if secret in values && key in values[secret] then Some(values[secret][key]) else None
  }

  /// Generators

  const MAX_LENGTH: nat := 4096

  predicate TakesLength(generator: string) {
    generator in ["base64", "hex", "alphanumeric"]
  }

  /** Whether `generate_value` has a value to give. */
  predicate Generates(generator: string, length: Option<nat>) {
    if TakesLength(generator) then length.Some? && 0 < length.value <= MAX_LENGTH
    else generator == "uuid"
  }

  predicate Alphanumeric(c: char) { 'a' <= c <= 'z' || 'A' <= c <= 'Z' || '0' <= c <= '9' }

  predicate HexDigit(c: char) { 'a' <= c <= 'f' || '0' <= c <= '9' }

  predicate Base64Char(c: char) { Alphanumeric(c) || c == '+' || c == '/' || c == '=' }

  /** What a generator can produce: its width and its alphabet, whatever the random source. */
  predicate Produces(generator: string, length: Option<nat>, value: string)
    requires Generates(generator, length)
  {
    if !TakesLength(generator) then
      |value| == 36 && forall i | 0 <= i < |value| :: HexDigit(value[i]) || value[i] == '-'
    else if generator == "base64" then
      |value| == (length.value + 2) / 3 * 4 && forall i | 0 <= i < |value| :: Base64Char(value[i])
    else if generator == "hex" then
      |value| == 2 * length.value && forall i | 0 <= i < |value| :: HexDigit(value[i])
    else
      |value| == length.value && forall i | 0 <= i < |value| :: Alphanumeric(value[i])
  }

  lemma GeneratedIsUsable(generator: string, length: Option<nat>, value: string)
    requires Generates(generator, length) && Produces(generator, length, value)
    ensures Usable(value)
  {
    assert PLACEHOLDER[11] == '_' && |PLACEHOLDER| == 28;
    if |value| == 28 {
      assert value[11] != '_';
    }
  }

  /**
    One run's randomness: what the generators draw for each key, and the
    certificate and key, if signing succeeds, for each authority.
   */
  datatype Draws = Draws(value: (string, string) -> string, ca: string -> Option<(string, string)>)

  ghost predicate Drawable(managed: Managed, draws: Draws) {
    forall s, k | s in managed && k in managed[s].keys ::
      var def := managed[s].keys[k];
      (def.generator.Some? && Generates(def.generator.value, def.length))
      ==> Produces(def.generator.value, def.length, draws.value(s, k))
  }

  /// Minting

  datatype MintError = MintRefused(secret: string)

  function KeptValue(def: ManagedKeyDef, held: Option<map<string, string>>, key: string): Option<string> {
    if def.generator.Some? || held.None? || key !in held.value || !Usable(held.value[key]) then None
    else Some(held.value[key])
  }

  /** A key without a generator keeps what an operator gave it, or waits for one. */
  function MintKey(def: ManagedKeyDef, held: Option<map<string, string>>, key: string, drawn: string): Option<string> {
    if KeptValue(def, held, key).Some? then KeptValue(def, held, key)
    else if def.generator.None? then Some(PLACEHOLDER)
    else if Generates(def.generator.value, def.length) then Some(drawn)
    else None
  }

  /** All the keys, or a refusal if any generator refuses. */
  function MintValues(name: string, secret: ManagedSecret, held: Option<map<string, string>>, draws: Draws)
    : Option<map<string, string>>
  {
    if forall k | k in secret.keys :: MintKey(secret.keys[k], held, k, draws.value(name, k)).Some?
    then Some(map k | k in secret.keys :: MintKey(secret.keys[k], held, k, draws.value(name, k)).value)
    else None
  }

  /** An authority is kept once it holds a certificate. */
  function MintCa(name: string, held: Option<map<string, string>>, draws: Draws): Option<map<string, string>> {
    if held.Some? && CERT_KEY in held.value then held
    else
      match draws.ca(name)
      case None => None
      case Some((cert, key)) => Some(map[CERT_KEY := cert, KEY_KEY := key])
  }

  function MintSecret(name: string, secret: ManagedSecret, held: Option<map<string, string>>, draws: Draws)
    : Option<map<string, string>>
  {
    if secret.kind.CaKind? then MintCa(name, held, draws) else MintValues(name, secret, held, draws)
  }

  function Held(existing: Option<StoreValues>, secret: string): Option<map<string, string>> {
    if existing.Some? && secret in existing.value then Some(existing.value[secret]) else None
  }

  type Minter = string -> Option<map<string, string>>

  function MinterOf(managed: Managed, existing: Option<StoreValues>, draws: Draws): Minter {
    (name: string) =>
      if name in managed then MintSecret(name, managed[name], Held(existing, name), draws) else None
  }

  /** The secrets a command works on: all of the store's, or the one named. */
  predicate Selected(managed: Managed, store: string, onlySecret: Option<string>, name: string) {
    name in SecretsIn(managed, store) && (onlySecret.Some? ==> name == onlySecret.value)
  }

  /** The keys of a secret minted, unless it has none. */
  predicate Holds(data: StoreValues, name: string, keys: Option<map<string, string>>) {
    && keys.Some?
    && (if keys.value.Keys == {} then name !in data else name in data && data[name] == keys.value)
  }

  ghost predicate Minted(managed: Managed, store: string, onlySecret: Option<string>, mint: Minter, data: StoreValues) {
    && (forall s | s in data :: Selected(managed, store, onlySecret, s))
    && (forall s | Selected(managed, store, onlySecret, s) :: Holds(data, s, mint(s)))
  }

  predicate Asked(names: seq<string>, onlySecret: Option<string>, s: string) {
    s in names && (onlySecret.Some? ==> s == onlySecret.value)
  }

  /** The first secret asked for that is refused. */
  predicate FirstRefused(names: seq<string>, onlySecret: Option<string>, mint: Minter, s: string) {
    exists i | 0 <= i < |names| ::
      names[i] == s && Asked(names, onlySecret, s) && mint(s).None?
      && forall j | 0 <= j < i && Asked(names, onlySecret, names[j]) :: mint(names[j]).Some?
  }

  /** The data holds what the names asked for mint to, and nothing else. */
  predicate HoldsAsked(names: seq<string>, onlySecret: Option<string>, mint: Minter, data: StoreValues) {
    && (forall s | s in data :: Asked(names, onlySecret, s))
    && (forall s | s in names && Asked(names, onlySecret, s) :: Holds(data, s, mint(s)))
  }

  lemma SkipNext(names: seq<string>, name: string, onlySecret: Option<string>, mint: Minter, data: StoreValues)
    requires HoldsAsked(names, onlySecret, mint, data) && onlySecret.Some? && name != onlySecret.value
    ensures HoldsAsked(names + [name], onlySecret, mint, data)
  {}

  lemma HoldNext(names: seq<string>, name: string, onlySecret: Option<string>, mint: Minter, data: StoreValues)
    requires HoldsAsked(names, onlySecret, mint, data) && (onlySecret.Some? ==> name == onlySecret.value)
    requires mint(name).Some?
    ensures var keys := mint(name).value;
            HoldsAsked(names + [name], onlySecret, mint, if keys.Keys == {} then data else data[name := keys])
  {
    assert name in names ==> Asked(names, onlySecret, name);
  }

  lemma RefusedNext(names: seq<string>, i: nat, onlySecret: Option<string>, mint: Minter, data: StoreValues)
    requires i < |names| && HoldsAsked(names[..i], onlySecret, mint, data)
    requires Asked(names, onlySecret, names[i]) && mint(names[i]).None?
    ensures FirstRefused(names, onlySecret, mint, names[i])
  {
    forall j | 0 <= j < i && Asked(names, onlySecret, names[j]) ensures mint(names[j]).Some? {
      assert names[..i][j] == names[j];
      assert Asked(names[..i], onlySecret, names[j]);
    }
  }

  method InsertMinted(names: seq<string>, onlySecret: Option<string>, mint: Minter)
    returns (r: Result<StoreValues, MintError>)
    ensures r.Err? ==> FirstRefused(names, onlySecret, mint, r.error.secret)
    ensures r.Ok? ==> HoldsAsked(names, onlySecret, mint, r.value)
  {
    var data: StoreValues := map[];
    for i := 0 to |names|
      invariant HoldsAsked(names[..i], onlySecret, mint, data)
    {
      var name := names[i];
      assert names[..i + 1] == names[..i] + [name];
      if onlySecret.Some? && name != onlySecret.value {
        SkipNext(names[..i], name, onlySecret, mint, data);
        continue;
      }
      var keys := mint(name);
      if keys.None? {
        RefusedNext(names, i, onlySecret, mint, data);
        return Err(MintRefused(name));
      }
      HoldNext(names[..i], name, onlySecret, mint, data);
      if keys.value.Keys != {} {
        data := data[name := keys.value];
      }
    }
    assert names[..|names|] == names;
    return Ok(data);
  }

  /** Selected, refused, and the first in name order to be. */
  ghost predicate RefusedFirst(managed: Managed, store: string, onlySecret: Option<string>, mint: Minter, refused: string) {
    && Selected(managed, store, onlySecret, refused) && mint(refused).None?
    && forall s | Selected(managed, store, onlySecret, s) && s != refused && StringLe(s, refused) :: mint(s).Some?
  }

  lemma FirstInOrder(managed: Managed, store: string, names: seq<string>, onlySecret: Option<string>, mint: Minter, refused: string)
    requires FirstRefused(names, onlySecret, mint, refused)
    requires forall s :: Asked(names, onlySecret, s) <==> Selected(managed, store, onlySecret, s)
    requires forall i, j | 0 <= i < j < |names| :: StringLe(names[i], names[j])
    ensures RefusedFirst(managed, store, onlySecret, mint, refused)
  {
    var i :| 0 <= i < |names| && names[i] == refused
             && forall j | 0 <= j < i && Asked(names, onlySecret, names[j]) :: mint(names[j]).Some?;
    assert Asked(names, onlySecret, refused) && mint(refused).None?;
    forall s | Selected(managed, store, onlySecret, s) && s != refused && StringLe(s, refused) ensures mint(s).Some? {
      assert Asked(names, onlySecret, s);
      var j :| 0 <= j < |names| && names[j] == s;
      StringLeTotal(s, refused);
    }
  }

  lemma AskedIsSelected(managed: Managed, store: string, names: seq<string>, onlySecret: Option<string>, s: string)
    requires forall n :: n in names <==> n in SecretsIn(managed, store)
    ensures Asked(names, onlySecret, s) <==> Selected(managed, store, onlySecret, s)
  {}

  /** Real minting of a whole store, or of one secret, over what it holds. */
  method MintStore(
    managed: Managed, store: string, onlySecret: Option<string>, existing: Option<StoreValues>, draws: Draws)
    returns (r: Result<StoreValues, MintError>)
    ensures var mint := MinterOf(managed, existing, draws);
            && (r.Ok? <==> forall s | Selected(managed, store, onlySecret, s) :: mint(s).Some?)
            && (r.Ok? ==> Minted(managed, store, onlySecret, mint, r.value))
            && (r.Err? ==> RefusedFirst(managed, store, onlySecret, mint, r.error.secret))
  {
    var names := Keys(SecretsIn(managed, store));
    r := MintNamed(managed, store, names, onlySecret, MinterOf(managed, existing, draws));
  }

  method MintNamed(managed: Managed, store: string, names: seq<string>, onlySecret: Option<string>, mint: Minter)
    returns (r: Result<StoreValues, MintError>)
    requires forall n :: n in names <==> n in SecretsIn(managed, store)
    requires forall i, j | 0 <= i < j < |names| :: StringLe(names[i], names[j])
    ensures r.Ok? <==> forall s | Selected(managed, store, onlySecret, s) :: mint(s).Some?
    ensures r.Ok? ==> Minted(managed, store, onlySecret, mint, r.value)
    ensures r.Err? ==> RefusedFirst(managed, store, onlySecret, mint, r.error.secret)
  {
    forall s ensures Asked(names, onlySecret, s) <==> Selected(managed, store, onlySecret, s) {
      AskedIsSelected(managed, store, names, onlySecret, s);
    }
    r := InsertMinted(names, onlySecret, mint);
    if r.Err? {
      FirstInOrder(managed, store, names, onlySecret, mint, r.error.secret);
    } else {
      AskedHeld(managed, store, names, onlySecret, mint, r.value);
    }
  }

  lemma AskedHeld(
    managed: Managed, store: string, names: seq<string>, onlySecret: Option<string>, mint: Minter, data: StoreValues)
    requires HoldsAsked(names, onlySecret, mint, data)
    requires forall s :: Asked(names, onlySecret, s) <==> Selected(managed, store, onlySecret, s)
    ensures Minted(managed, store, onlySecret, mint, data)
    ensures forall s | Selected(managed, store, onlySecret, s) :: mint(s).Some?
  {
    forall s | Selected(managed, store, onlySecret, s) ensures Holds(data, s, mint(s)) {
      assert Asked(names, onlySecret, s);
    }
  }

  /// What minting keeps

  /** A value an operator gave for a key nothing generates is kept, to the letter. */
  lemma OperatorValuesAreKept(
    managed: Managed, store: string, existing: StoreValues, draws: Draws, data: StoreValues, s: string, k: string)
    requires Minted(managed, store, None, MinterOf(managed, Some(existing), draws), data)
    requires s in managed && managed[s].store == store && managed[s].kind.ValueKind?
    requires k in managed[s].keys && managed[s].keys[k].generator.None?
    requires Lookup(existing, s, k).Some? && Usable(Lookup(existing, s, k).value)
    ensures Lookup(data, s, k) == Lookup(existing, s, k)
  {
    MintedValue(managed, store, Some(existing), draws, data, s, k);
  }

  /** What a value key of a minted store holds. */
  lemma MintedValue(
    managed: Managed, store: string, existing: Option<StoreValues>, draws: Draws, data: StoreValues, s: string, k: string)
    requires Minted(managed, store, None, MinterOf(managed, existing, draws), data)
    requires s in managed && managed[s].store == store && managed[s].kind.ValueKind? && k in managed[s].keys
    ensures s in data && data[s].Keys == managed[s].keys.Keys
    ensures MintKey(managed[s].keys[k], Held(existing, s), k, draws.value(s, k)) == Some(data[s][k])
  {
    var mint := MinterOf(managed, existing, draws);
    assert Selected(managed, store, None, s);
    assert Holds(data, s, mint(s));
    assert k in mint(s).value;
  }

  /** An authority that holds a certificate is kept whole. */
  lemma AuthoritiesAreKept(
    managed: Managed, store: string, existing: StoreValues, draws: Draws, data: StoreValues, s: string)
    requires Minted(managed, store, None, MinterOf(managed, Some(existing), draws), data)
    requires s in managed && managed[s].store == store && managed[s].kind.CaKind?
    requires s in existing && CERT_KEY in existing[s]
    ensures s in data && data[s] == existing[s]
  {
    var mint := MinterOf(managed, Some(existing), draws);
    assert Selected(managed, store, None, s);
    assert Holds(data, s, mint(s));
    assert CERT_KEY in mint(s).value;
  }

  /** An authority without a certificate is given the pair that was signed, certificate and key each in its place. */
  lemma FreshAuthorities(
    managed: Managed, store: string, existing: Option<StoreValues>, draws: Draws, data: StoreValues, s: string)
    requires Minted(managed, store, None, MinterOf(managed, existing, draws), data)
    requires s in managed && managed[s].store == store && managed[s].kind.CaKind?
    requires existing.None? || Lookup(existing.value, s, CERT_KEY).None?
    ensures draws.ca(s).Some? && s in data
    ensures var (cert, key) := draws.ca(s).value;
            data[s].Keys == {CERT_KEY, KEY_KEY} && data[s][CERT_KEY] == cert && data[s][KEY_KEY] == key
  {
    var mint := MinterOf(managed, existing, draws);
    assert Selected(managed, store, None, s);
    assert Holds(data, s, mint(s));
    assert CERT_KEY in mint(s).value && CERT_KEY != KEY_KEY;
  }

  /** A key with a generator is drawn anew, whatever the store held for it. */
  lemma GeneratedAreRedrawn(
    managed: Managed, store: string, existing: Option<StoreValues>, draws: Draws, data: StoreValues, s: string, k: string)
    requires Minted(managed, store, None, MinterOf(managed, existing, draws), data)
    requires s in managed && managed[s].store == store && managed[s].kind.ValueKind?
    requires k in managed[s].keys && managed[s].keys[k].generator.Some?
    ensures Lookup(data, s, k) == Some(draws.value(s, k))
  {
    MintedValue(managed, store, existing, draws, data, s, k);
  }

  /** A generator the source knows, with a length of one to 4096 where it takes one. */
  predicate Known(def: ManagedKeyDef) {
    def.generator.Some? ==>
      || def.generator.value == "uuid"
      || (&& def.generator.value in ["base64", "hex", "alphanumeric"]
          && def.length.Some? && 1 <= def.length.value <= 4096)
  }

  /** A secret is minted exactly when every generator it names is known, or its authority is held or can be signed. */
  lemma MintsExactly(managed: Managed, existing: Option<StoreValues>, draws: Draws, s: string)
    ensures MinterOf(managed, existing, draws)(s).Some? <==>
            s in managed &&
            if managed[s].kind.CaKind?
            then (existing.Some? && Lookup(existing.value, s, CERT_KEY).Some?) || draws.ca(s).Some?
            else forall k | k in managed[s].keys :: Known(managed[s].keys[k])
  {
    if s in managed && managed[s].kind.ValueKind? {
      forall k | k in managed[s].keys
        ensures MintKey(managed[s].keys[k], Held(existing, s), k, draws.value(s, k)).Some? <==> Known(managed[s].keys[k])
      {
        MintsKeyExactly(managed[s].keys[k], Held(existing, s), k, draws.value(s, k));
      }
    }
  }

  lemma MintsKeyExactly(def: ManagedKeyDef, held: Option<map<string, string>>, key: string, drawn: string)
    ensures MintKey(def, held, key, drawn).Some? <==> Known(def)
  {}

  /** Naming one secret mints that one alone: what is written back holds no other. */
  lemma OneSecretAlone(
    managed: Managed, store: string, wanted: string, mint: Minter, data: StoreValues, s: string)
    requires Minted(managed, store, Some(wanted), mint, data) && s in data
    ensures s == wanted
  {
    assert Selected(managed, store, Some(wanted), s);
  }
}
