/** The application properties store: getting a property with a default
    stores the default when the key is absent, typed getters check the
    default and the stored text, and run-mode specific keys are the run
    mode's name, a dot and the plain key. The properties file itself is
    modelled as a map from key to text. */
module AppConfigs {
  import opened Wrappers
  import JS = JavaStrings

  type Store = map<string, string>

  const TYPE_STRING := "string"
  const TYPE_INTEGER := "integer"
  const TYPE_PATH := "path"
  const TYPE_BOOLEAN := "boolean"

  datatype RunMode = UI | CLI | RMI

  function RunModeName(m: RunMode): string {
    match m
    case UI => "UI"
    case CLI => "CLI"
    case RMI => "RMI"
  }

  /** `ConfigurationError` is declared; `RuntimeException` is not. */
  datatype AppError = ConfigurationError | RuntimeError

  /** The store after a call, and what the call returned or raised. */
  datatype Outcome<T> = Outcome(store: Store, result: Result<T, AppError>)

  /** The key a run mode reads and writes. */
  function ModeKey(m: RunMode, key: string): string {
    RunModeName(m) + "." + key
  }

  /** `uncheckedGetOrSetApplicationProperty`: the default is stored only
      for an absent key; the stored value is returned either way. */
  function UncheckedGetOrSet(s: Store, key: string, def: string): (r: Outcome<string>)
    ensures key in r.store && r.result == Success(r.store[key])
    ensures key in s ==> r.store == s
    ensures key !in s ==> r.store == s[key := def]
  {
    var s' := if key !in s then s[key := def] else s;
    Outcome(s', Success(s'[key]))
  }

  /** `getOrSetApplicationProperty(pName, default, type)`. `isInteger` and
      `isBoolean` are the conversion helpers' text checks. */
  function GetOrSetTyped(s: Store, key: string, def: string, typ: string,
                         isInteger: string -> bool, isBoolean: string -> bool): (r: Outcome<string>)
    ensures r.result.Success? ==> key in r.store && r.result.value == r.store[key]
    ensures r.store == s || r.store == s[key := def]
    // string and path are never checked
    ensures typ == TYPE_STRING || typ == TYPE_PATH ==> r == UncheckedGetOrSet(s, key, def)
    // a bad default is rejected before the store is touched
    ensures typ == TYPE_INTEGER ==>
      r == if isInteger(def) then UncheckedGetOrSet(s, key, def) else Outcome(s, Failure(ConfigurationError))
    ensures typ == TYPE_BOOLEAN && !isBoolean(def) ==> r == Outcome(s, Failure(RuntimeError))
    // a stored non-boolean is rejected after the default was checked
    ensures typ == TYPE_BOOLEAN && isBoolean(def) ==>
      r == if key in s && !isBoolean(s[key]) then Outcome(s, Failure(ConfigurationError))
           else UncheckedGetOrSet(s, key, def)
    ensures typ !in {TYPE_STRING, TYPE_PATH, TYPE_INTEGER, TYPE_BOOLEAN} ==> r == Outcome(s, Failure(RuntimeError))
  {
    if typ == TYPE_STRING || typ == TYPE_PATH then UncheckedGetOrSet(s, key, def)
    else if typ == TYPE_INTEGER then
      if !isInteger(def) then Outcome(s, Failure(ConfigurationError))
      else UncheckedGetOrSet(s, key, def)
    else if typ == TYPE_BOOLEAN then
      if !isBoolean(def) then Outcome(s, Failure(RuntimeError))
      else
        var got := UncheckedGetOrSet(s, key, def);
        if !isBoolean(got.result.value) then Outcome(got.store, Failure(ConfigurationError))
        else got
    else Outcome(s, Failure(RuntimeError))
  }

  /** The string form: the typed getter with type string, whose
      configuration error the source turns into a runtime error. The
      string type is never checked, so that path is never taken and the
      call behaves as the unchecked getter. */
  function GetOrSet(s: Store, key: string, def: string): (r: Outcome<string>)
    ensures r == UncheckedGetOrSet(s, key, def)
  {
    var got := GetOrSetTyped(s, key, def, TYPE_STRING, _ => false, _ => false);
    Outcome(got.store, Success(got.result.value))
  }

  /** The run-mode getter: the plain key is got-or-set first, and its value
      is the default for the run-mode key. */
  function GetOrSetForMode(s: Store, m: RunMode, key: string, def: string): (r: Outcome<string>)
  {
    var plain := GetOrSet(s, key, def);
    GetOrSet(plain.store, ModeKey(m, key), plain.result.value)
  }

  /** The run-mode setter. */
  function SetForMode(s: Store, m: RunMode, key: string, text: string): (r: Store)
    ensures ModeKey(m, key) in r && r[ModeKey(m, key)] == text
    ensures forall k :: k in s && k != ModeKey(m, key) ==> k in r && r[k] == s[k]
  {
    s[ModeKey(m, key) := text]
  }

  /** `Boolean.parseBoolean`: true exactly for "true" in any letter case. */
  predicate ParseBoolean(t: string) {
    JS.ToLower(t) == "true"
  }

  /** `getOrSetBooleanApplicationProperty`. */
  function GetOrSetBoolean(s: Store, key: string, def: bool, isInteger: string -> bool, isBoolean: string -> bool): (r: Outcome<bool>)
    ensures r.result.Success? ==> key in r.store && r.result.value == ParseBoolean(r.store[key])
  {
    var got := GetOrSetTyped(s, key, if def then "true" else "false", TYPE_BOOLEAN, isInteger, isBoolean);
    match got.result
    case Failure(e) => Outcome(got.store, Failure(e))
    case Success(t) => Outcome(got.store, Success(ParseBoolean(t)))
  }

  /** `getOrSetIntegerApplicationProperty`: a null default is the text
      "null"; text that does not parse raises the configuration error. */
  function GetOrSetInteger(s: Store, key: string, def: Option<int>, isInteger: string -> bool, isBoolean: string -> bool): (r: Outcome<int>)
    ensures r.result.Success? ==> key in r.store && JS.ParseInt(r.store[key]) == Some(r.result.value)
    // with an accepted default, a stored text decides alone: its number, or the configuration error
    ensures key in s && isInteger(if def.Some? then JS.IntToString(def.value) else "null") ==>
      r.store == s &&
      r.result == if JS.ParseInt(s[key]).Some? then Success(JS.ParseInt(s[key]).value) else Failure(ConfigurationError)
  {
    var defText := if def.Some? then JS.IntToString(def.value) else "null";
    var got := GetOrSetTyped(s, key, defText, TYPE_INTEGER, isInteger, isBoolean);
    match got.result
    case Failure(e) => Outcome(got.store, Failure(e))
    case Success(t) =>
      var n := JS.ParseInt(t);
      if n.None? then Outcome(got.store, Failure(ConfigurationError))
      else Outcome(got.store, Success(n.value))
  }

  // ---------------------------------------------------------------------
  // Properties
  // ---------------------------------------------------------------------

  /** A stored MATHEMATICAL BOLD DIGIT ONE is two surrogates to Java, so the
      integer getter raises the configuration error and keeps the store. */
  lemma SupplementaryDigitStored(key: string, d: int, isInteger: string -> bool, isBoolean: string -> bool)
    requires isInteger(JS.IntToString(d))
    ensures var s := map[key := "\U{1D7CF}"];
      GetOrSetInteger(s, key, Some(d), isInteger, isBoolean) == Outcome(s, Failure(ConfigurationError))
  {
    JS.ParseIntExamples();
  }

  /** Getting a property twice gives the same value, and the second call
      leaves the store alone, whatever its default. */
  lemma GetOrSetStable(s: Store, key: string, def: string, def2: string)
    ensures var first := UncheckedGetOrSet(s, key, def);
      var second := UncheckedGetOrSet(first.store, key, def2);
      second.store == first.store && second.result == first.result
  {
  }

  /** After the run-mode getter both the plain and the run-mode key are
      present; the run-mode key wins, then the plain key, then the default. */
  lemma ForModeBothKeys(s: Store, m: RunMode, key: string, def: string)
    ensures var r := GetOrSetForMode(s, m, key, def);
      key in r.store && ModeKey(m, key) in r.store && r.result == Success(r.store[ModeKey(m, key)]) &&
      r.result.value == (if ModeKey(m, key) in s then s[ModeKey(m, key)] else if key in s then s[key] else def)
  {
    // The run-mode key carries the mode's name and a dot, so it is never
    // the plain key.
    assert |ModeKey(m, key)| > |key|;
    var plain := GetOrSet(s, key, def);
    assert ModeKey(m, key) in plain.store <==> ModeKey(m, key) in s;
  }

  /** What the run-mode setter writes the run-mode getter reads back. */
  lemma SetThenGetForMode(s: Store, m: RunMode, key: string, text: string, def: string)
    ensures GetOrSetForMode(SetForMode(s, m, key, text), m, key, def).result == Success(text)
  {
    ForModeBothKeys(SetForMode(s, m, key, text), m, key, def);
  }

  /** A 32-bit default for a fresh key comes back as the same number. */
  lemma IntegerDefaultRoundTrip(s: Store, key: string, d: int, isInteger: string -> bool, isBoolean: string -> bool)
    requires key !in s && JS.IsInt32(d) && isInteger(JS.IntToString(d))
    ensures GetOrSetInteger(s, key, Some(d), isInteger, isBoolean) == Outcome(s[key := JS.IntToString(d)], Success(d))
  {
    JS.ParseIntOfIntToString(d);
  }
}
