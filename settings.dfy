/** The client's settings context (`contexts/settings.context.tsx`): the
    settings start from what `localStorage` holds under `system_settings`,
    spread over the defaults, and every update or reset is written back.
    `JSON.parse` and `JSON.stringify` are parameters (a parse that throws
    is `None`). */
module Settings {
  import opened Wrappers
  import opened Text
  import opened Envelope
  import Lists

  type SettingsMap = map<string, Json>

  const Defaults: SettingsMap := map["refreshInterval" := JString("5000"), "logHistorySize" := JString("1000")]

  /** Distinct indices have distinct decimal names. */
  lemma NatToStringInjective()
    ensures forall a: nat, b: nat :: NatToString(a) == NatToString(b) ==> a == b
  {
    forall a: nat, b: nat | NatToString(a) == NatToString(b)
      ensures a == b
    {
      NatToStringValue(a);
      NatToStringValue(b);
    }
  }

  /** An array's elements by the decimal names of their indices. */
  function IndexMap<T>(items: seq<T>): (r: map<string, T>)
    ensures forall k: nat :: k < |items| ==> NatToString(k) in r && r[NatToString(k)] == items[k]
    ensures forall key :: key in r ==> exists k: nat :: k < |items| && key == NatToString(k)
  {
    if |items| == 0 then map[]
    else
      var n := |items| - 1;
      NatToStringInjective();
      IndexMap(items[..n])[NatToString(n) := items[n]]
  }

  function CharString(c: char): Json {
    JString([c])
  }

  /** The own enumerable properties `{...v}` copies: an object's fields,
      the indices of an array or of a string's characters, and nothing for
      `null`, `undefined`, booleans and numbers. */
  function Spread(v: Json): (r: SettingsMap)
    ensures v.JObject? ==> r == v.fields
    ensures !v.JObject? && !v.JArray? && !v.JString? ==> r == map[]
    ensures v.JArray? ==> forall k: nat :: k < |v.items| ==> NatToString(k) in r && r[NatToString(k)] == v.items[k]
    ensures v.JString? ==> forall k: nat :: k < |v.s| ==> NatToString(k) in r && r[NatToString(k)] == JString([v.s[k]])
  {
    match v
    case JObject(fields) => fields
    case JArray(items) => IndexMap(items)
    case JString(s) => IndexMap(Lists.Map(s, CharString))
    case _ => map[]
  }

  /** The initial settings: a non-empty saved text that parses is spread
      over the defaults; no saved text, an empty one or one that does not
      parse gives the defaults. */
  function InitialSettings(saved: Option<string>, parse: string -> Option<Json>): (r: SettingsMap)
    ensures saved.None? || saved.value == "" ==> r == Defaults
    ensures saved.Some? && saved.value != "" && parse(saved.value).None? ==> r == Defaults
    ensures saved.Some? && saved.value != "" && parse(saved.value).Some? ==>
      r == Defaults + Spread(parse(saved.value).value)
  {
    if saved.Some? && saved.value != "" then
      match parse(saved.value)
      case Some(v) => Defaults + Spread(v)
      case None => Defaults
    else Defaults
  }

  /** Saved settings keep both defaults' keys, with the saved value where
      there is one. */
  lemma InitialKeepsDefaultKeys(saved: Option<string>, parse: string -> Option<Json>)
    ensures Defaults.Keys <= InitialSettings(saved, parse).Keys
    ensures forall k :: k in Defaults && (saved.None? || parse(saved.value).None? || k !in Spread(parse(saved.value).value)) ==>
      InitialSettings(saved, parse)[k] == Defaults[k]
  {
  }

  /** A saved `null`, number or boolean leaves the defaults. */
  lemma SavedScalarGivesDefaults(text: string, parse: string -> Option<Json>)
    requires text != ""
    requires parse(text).Some? && (parse(text).value.JNull? || parse(text).value.JNumber? || parse(text).value.JBool?)
    ensures InitialSettings(Some(text), parse) == Defaults
  {
  }

  /** `{ ...prev, ...newSettings }`: the fields given replace those of
      `prev`, every other field stays. */
  function Updated(prev: SettingsMap, partial: SettingsMap): (r: SettingsMap)
    ensures r.Keys == prev.Keys + partial.Keys
    ensures forall k :: k in partial ==> r[k] == partial[k]
    ensures forall k :: k in prev && k !in partial ==> r[k] == prev[k]
  {
    prev + partial
  }

  /** An update with nothing in it changes nothing, and updating twice is
      one update with the later values winning. */
  lemma UpdatedCompose(prev: SettingsMap, a: SettingsMap, b: SettingsMap)
    ensures Updated(prev, map[]) == prev
    ensures Updated(Updated(prev, a), b) == Updated(prev, Updated(a, b))
  {
  }

  /** The provider's state and the stored text it mirrors. */
  class SettingsProvider {
    var settings: SettingsMap
    /** `localStorage['system_settings']`. */
    var stored: Option<string>
    const stringify: SettingsMap -> string

    constructor(saved: Option<string>, parse: string -> Option<Json>, stringify: SettingsMap -> string)
      ensures settings == InitialSettings(saved, parse) && stored == saved
      ensures this.stringify == stringify
    {
      settings := InitialSettings(saved, parse);
      stored := saved;
      this.stringify := stringify;
    }

    /** `updateSettings(newSettings)`. */
    method UpdateSettings(partial: SettingsMap)
      modifies this
      ensures settings == Updated(old(settings), partial)
      ensures stored == Some(stringify(settings))
    {
      settings := Updated(settings, partial);
      stored := Some(stringify(settings));
    }

    /** `resetSettings()`. */
    method ResetSettings()
      modifies this
      ensures settings == Defaults
      ensures stored == Some(stringify(Defaults))
    {
      settings := Defaults;
      stored := Some(stringify(Defaults));
    }
  }

  /** What is written back is read again on the next start, given a
      `JSON.parse` that reads what `JSON.stringify` writes (an object's
      text is never empty): an updated state survives a reload. */
  lemma ReloadRestores(m: SettingsMap, parse: string -> Option<Json>, stringify: SettingsMap -> string)
    requires Defaults.Keys <= m.Keys
    requires stringify(m) != "" && parse(stringify(m)) == Some(JObject(m))
    ensures InitialSettings(Some(stringify(m)), parse) == m
  {
    assert Defaults + m == m;
  }

  /** Resetting twice is resetting once, whatever came before, and the
      defaults are what is stored. */
  method ResetScenario(saved: Option<string>, parse: string -> Option<Json>, stringify: SettingsMap -> string, partial: SettingsMap)
    returns (once: SettingsMap, twice: SettingsMap, storedAfter: Option<string>)
    ensures once == Defaults && twice == Defaults
    ensures storedAfter == Some(stringify(Defaults))
  {
    var provider := new SettingsProvider(saved, parse, stringify);
    provider.UpdateSettings(partial);
    provider.ResetSettings();
    once := provider.settings;
    provider.ResetSettings();
    twice := provider.settings;
    storedAfter := provider.stored;
  }
}
