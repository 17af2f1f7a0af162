/**
 * The application's settings: an in-memory key/value dictionary layered
 * over the built-in defaults (backend/config_manager.py).  Reading and
 * writing the JSON file is outside the model; what the file held is a
 * parameter of `Load`.
 */
module Config {
  import opened Models

  type Settings = map<string, Value>

  /** `DEFAULT_CONFIG`. */
  const DefaultConfig: Settings := map[
    "game_path" := Str(""),
    "userdata_path" := Str(""),
    "auto_backup" := Bool(true),
    "confirm_before_copy" := Bool(true),
    "max_backups" := Int(5),
    "version" := Str("1.0.0")
  ]

  /** What reading the config file gave. */
  datatype Stored =
    | Absent              // the file does not exist
    | Unreadable          // opening or parsing raised; the error is printed
    | Parsed(json: Value) // `json.load(f)`

  /** `d.get(key, default)`. */
  function GetOr(d: Settings, key: string, default: Value): (v: Value)
    ensures key in d ==> v == d[key]
    ensures key !in d ==> v == default
  {
    if key in d then d[key] else default
  }

  /** `d.update(kw)`: the keys of `kw` take its values, every other key keeps its own. */
  function Overlay(d: Settings, kw: Settings): (r: Settings)
    ensures r.Keys == d.Keys + kw.Keys
    ensures forall k :: k in kw ==> r[k] == kw[k]
    ensures forall k :: k in d && k !in kw ==> r[k] == d[k]
  {
    d + kw
  }

  /**
   * The merge step of `load()`: a parsed JSON object is laid over the
   * current settings; a missing or unreadable file, or a top-level JSON
   * value that is not an object (`update` raises on it), keeps them.
   */
  function Merge(d: Settings, stored: Stored): (r: Settings)
    ensures d.Keys <= r.Keys
    ensures stored.Parsed? && stored.json.Object? ==> r == Overlay(d, stored.json.fields)
    ensures !(stored.Parsed? && stored.json.Object?) ==> r == d
  {
    match stored
    case Parsed(Object(fields)) => Overlay(d, fields)
    case _ => d
  }

  /** After `set(k, v)`, `get(k)` is `v` and every other key reads as before. */
  lemma SetThenGet(d: Settings, key: string, value: Value, other: string, default: Value)
    ensures GetOr(d[key := value], key, default) == value
    ensures other != key ==> GetOr(d[key := value], other, default) == GetOr(d, other, default)
  {
  }

  /** `update(**kw)` overwrites exactly the keys in `kw`. */
  lemma UpdateThenGet(d: Settings, kw: Settings, key: string, default: Value)
    ensures GetOr(Overlay(d, kw), key, default) == if key in kw then kw[key] else GetOr(d, key, default)
  {
  }

  /** Loading the same file twice gives what loading it once gives. */
  lemma MergeIdempotent(d: Settings, stored: Stored)
    ensures Merge(Merge(d, stored), stored) == Merge(d, stored)
  {
    if stored.Parsed? && stored.json.Object? {
      var kw := stored.json.fields;
      assert Overlay(Overlay(d, kw), kw) == Overlay(d, kw);
    }
  }

  /** Every default key is present after loading, whatever the file held. */
  lemma LoadedKeepsDefaults(stored: Stored)
    ensures DefaultConfig.Keys <= Merge(DefaultConfig, stored).Keys
    ensures forall k :: k in DefaultConfig && !(stored.Parsed? && stored.json.Object? && k in stored.json.fields) ==>
      Merge(DefaultConfig, stored)[k] == DefaultConfig[k]
  {
  }

  /** `ConfigManager(config_file)`. */
  class ConfigManager {
    const configFile: string
    var config: Settings

    /** `self.config = DEFAULT_CONFIG.copy()` then `self.load()`. */
    constructor(configFile: string, stored: Stored)
      ensures this.configFile == configFile
      ensures config == Merge(DefaultConfig, stored)
    {
      this.configFile := configFile;
      config := DefaultConfig;
      new;
      var _ := Load(stored);
    }

    /** `load()`: merge what the file held and return the settings. */
    method Load(stored: Stored) returns (r: Settings)
      modifies this
      ensures config == Merge(old(config), stored)
      ensures r == config
    {
      if stored.Parsed? && stored.json.Object? {
        config := config + stored.json.fields;
      }
      r := config;
    }

    /** `get(key, default)`. */
    function Get(key: string, default: Value): (v: Value)
      reads this
      ensures key in config ==> v == config[key]
      ensures key !in config ==> v == default
    {
      GetOr(config, key, default)
    }

    /** `set(key, value)`. */
    method Set(key: string, value: Value)
      modifies this
      ensures config == old(config)[key := value]
      ensures Get(key, Null) == value
    {
      config := config[key := value];
    }

    /** `update(**kw)`. */
    method Update(kw: Settings)
      modifies this
      ensures config == Overlay(old(config), kw)
    {
      config := config + kw;
    }

    /** `reset()`: a fresh copy of the defaults. */
    method Reset()
      modifies this
      ensures config == DefaultConfig
    {
      config := DefaultConfig;
    }
  }
}
