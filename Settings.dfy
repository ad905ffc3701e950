/**
 * User configuration: the four sections with their defaults, and reading or
 * writing one setting by its dot-separated key. Loading and saving the TOML
 * file are not modelled.
 */
module Settings {
  import opened Wrappers
  import opened Text

  datatype BackendConfig = BackendConfig(priority: seq<string>, disabled: seq<string>)
  datatype BehaviorConfig = BehaviorConfig(verbose: bool, autoConfirm: bool, createShims: bool)
  datatype ShimConfig = ShimConfig(autoRefresh: bool)
  datatype TelemetryConfig = TelemetryConfig(enabled: bool, clientId: Option<string>)

  /** The value of a whole configuration. */
  datatype ConfigData = ConfigData(
    backends: BackendConfig,
    behavior: BehaviorConfig,
    shims: ShimConfig,
    telemetry: TelemetryConfig)

  function DefaultBackends(): BackendConfig {
    BackendConfig(["apt", "winget", "brew", "snap", "npm", "pip"], [])
  }

  function DefaultBehavior(): BehaviorConfig {
    BehaviorConfig(false, true, true)
  }

  function DefaultShims(): ShimConfig {
    ShimConfig(true)
  }

  /**
   * The derived `Default` of the telemetry section: `bool::default()` and
   * `None`. The `default_telemetry_enabled` helper only applies when a file
   * without the field is deserialized.
   */
  function DefaultTelemetry(): TelemetryConfig {
    TelemetryConfig(false, None)
  }

  /**
   * `Config::default()`: every setting but the client id has a value, the
   * priority list names six backends, none is disabled and telemetry is off.
   */
  function DefaultConfig(): (r: ConfigData)
    ensures forall k :: Field(r, k).None? <==> k == ClientId
    ensures |r.backends.priority| == 6 && r.backends.disabled == [] && !r.telemetry.enabled
  {
    ConfigData(DefaultBackends(), DefaultBehavior(), DefaultShims(), DefaultTelemetry())
  }

  // ------------------------------------------------------------------ keys

  /** The settings a dot-key can name. */
  datatype Key = Priority | Disabled | Verbose | AutoConfirm | CreateShims | AutoRefresh | Enabled | ClientId

  /** The sections of the configuration file, in their order there. */
  const Sections: seq<string> := ["backends", "behavior", "shims", "telemetry"]

  /** The dotted name of a key: its section, a dot, then the field. */
  function KeyName(k: Key): (r: string)
    ensures exists sec :: sec in Sections && StartsWith(r, sec + ".")
  {
    var r := match k {
      case Priority => "backends.priority"
      case Disabled => "backends.disabled"
      case Verbose => "behavior.verbose"
      case AutoConfirm => "behavior.auto_confirm"
      case CreateShims => "behavior.create_shims"
      case AutoRefresh => "shims.auto_refresh"
      case Enabled => "telemetry.enabled"
      case ClientId => "telemetry.client_id"
    };
    var sec := if k in {Priority, Disabled} then Sections[0]
      else if k in {Verbose, AutoConfirm, CreateShims} then Sections[1]
      else if k == AutoRefresh then Sections[2]
      else Sections[3];
    assert StartsWith(r, sec + ".");
    r
  }

  /** The keys in the order of the arms of the `match key` in `get` and `set`. */
  const AllKeys: seq<Key> := [Priority, Disabled, Verbose, AutoConfirm, CreateShims, AutoRefresh, Enabled, ClientId]

  /** The first of `keys` whose name is `s`. */
  function FindKey(s: string, keys: seq<Key>): (k: Option<Key>)
    ensures k.Some? ==> KeyName(k.value) == s && k.value in keys
    ensures k.None? ==> forall j :: 0 <= j < |keys| ==> KeyName(keys[j]) != s
  {
    if keys == [] then None
    else if KeyName(keys[0]) == s then Some(keys[0])
    else FindKey(s, keys[1..])
  }

  /** Which arm of the `match key` a string selects: the key of that name, if there is one. */
  function ParseKey(s: string): (r: Option<Key>)
    ensures r.Some? ==> KeyName(r.value) == s
    ensures forall k :: KeyName(k) == s ==> r == Some(k)
  {
    assert forall k :: KeyName(k) == s ==> FindKey(s, AllKeys) == Some(k) by {
      forall k | KeyName(k) == s
        ensures FindKey(s, AllKeys) == Some(k)
      {
        assert k in AllKeys;
        KeyNameInjective(FindKey(s, AllKeys).value, k);
      }
    }
    FindKey(s, AllKeys)
  }

  /** No two keys share a name: each differs from every other in its length or its tenth character. */
  lemma KeyNameInjective(a: Key, b: Key)
    ensures KeyName(a) == KeyName(b) ==> a == b
  {
    if KeyName(a) == KeyName(b) {
      assert |KeyName(a)| == |KeyName(b)| && KeyName(a)[9] == KeyName(b)[9];
    }
  }

  /** Every key's name selects that key. */
  lemma ParseKeyName(k: Key)
    ensures ParseKey(KeyName(k)) == Some(k)
  {
    assert k in AllKeys;
    var i :| 0 <= i < |AllKeys| && AllKeys[i] == k;
    assert KeyName(AllKeys[i]) == KeyName(k);
    KeyNameInjective(ParseKey(KeyName(k)).value, k);
  }

  /** `list_keys`: the name of every key, in the order of the `match`. */
  function ListKeys(): (names: seq<string>)
    ensures |names| == |AllKeys|
  {
    seq(|AllKeys|, j requires 0 <= j < |AllKeys| => KeyName(AllKeys[j]))
  }

  /** A string is a known key exactly when it is listed. */
  lemma KnownIffListed(s: string)
    ensures ParseKey(s).Some? <==> s in ListKeys()
  {
    if ParseKey(s).Some? {
      var k := ParseKey(s).value;
      var j :| 0 <= j < |AllKeys| && AllKeys[j] == k;
      assert ListKeys()[j] == s;
    }
  }

  // ------------------------------------------------------------------ values

  /** `bool::to_string`. */
  function BoolString(b: bool): string {
    if b then "true" else "false"
  }

  /** `str::parse::<bool>`: exactly "true" or "false". */
  function ParseBool(s: string): (r: Option<bool>)
    ensures r.Some? <==> s == "true" || s == "false"
    ensures r.Some? ==> BoolString(r.value) == s
  {
    if s == "true" then Some(true) else if s == "false" then Some(false) else None
  }

  /** Printing a flag and parsing it back gives the flag. */
  lemma ParseBoolString(b: bool)
    ensures ParseBool(BoolString(b)) == Some(b)
  {
    assert |"true"| != |"false"|;
  }

  /** The list a list key stores for `value`: the ','-separated pieces, each trimmed. */
  function ParseList(value: string): (r: seq<string>)
    ensures |r| == |Split(value, ',')| >= 1
    ensures forall i :: 0 <= i < |r| ==> r[i] == Trim(Split(value, ',')[i])
  {
    var pieces := Split(value, ',');
    seq(|pieces|, i requires 0 <= i < |pieces| => Trim(pieces[i]))
  }

  /** The current value of one setting as `get` prints it; only an unset client id has none. */
  function Field(c: ConfigData, k: Key): (r: Option<string>)
    ensures r.None? <==> k == ClientId && c.telemetry.clientId.None?
  {
    match k
    case Priority => Some(Join(c.backends.priority, ","))
    case Disabled => Some(Join(c.backends.disabled, ","))
    case Verbose => Some(BoolString(c.behavior.verbose))
    case AutoConfirm => Some(BoolString(c.behavior.autoConfirm))
    case CreateShims => Some(BoolString(c.behavior.createShims))
    case AutoRefresh => Some(BoolString(c.shims.autoRefresh))
    case Enabled => Some(BoolString(c.telemetry.enabled))
    case ClientId => c.telemetry.clientId
  }

  /** `Config::get`: answers every listed key except an unset client id, and no other key. */
  function Lookup(c: ConfigData, key: string): (r: Option<string>)
    ensures r.Some? <==> key in ListKeys() && (key != KeyName(ClientId) || c.telemetry.clientId.Some?)
  {
    KnownIffListed(key);
    match ParseKey(key)
    case None => None
    case Some(k) => Field(c, k)
  }

  predicate IsFlag(k: Key) {
    k in {Verbose, AutoConfirm, CreateShims, AutoRefresh, Enabled}
  }

  /**
   * One arm of `Config::set`: the new configuration, or "Invalid boolean" for
   * a flag given text other than "true" or "false", the only way an arm fails.
   */
  function Update(c: ConfigData, k: Key, value: string): (r: Result<ConfigData>)
    ensures r.Err? <==> IsFlag(k) && value != "true" && value != "false"
    ensures r.Err? ==> r.error == "Invalid boolean"
  {
    match k
    case Priority => Ok(c.(backends := c.backends.(priority := ParseList(value))))
    case Disabled => Ok(c.(backends := c.backends.(disabled := ParseList(value))))
    case Verbose =>
      (match ParseBool(value)
       case None => Err("Invalid boolean")
       case Some(b) => Ok(c.(behavior := c.behavior.(verbose := b))))
    case AutoConfirm =>
      (match ParseBool(value)
       case None => Err("Invalid boolean")
       case Some(b) => Ok(c.(behavior := c.behavior.(autoConfirm := b))))
    case CreateShims =>
      (match ParseBool(value)
       case None => Err("Invalid boolean")
       case Some(b) => Ok(c.(behavior := c.behavior.(createShims := b))))
    case AutoRefresh =>
      (match ParseBool(value)
       case None => Err("Invalid boolean")
       case Some(b) => Ok(c.(shims := c.shims.(autoRefresh := b))))
    case Enabled =>
      (match ParseBool(value)
       case None => Err("Invalid boolean")
       case Some(b) => Ok(c.(telemetry := c.telemetry.(enabled := b))))
    case ClientId => Ok(c.(telemetry := c.telemetry.(clientId := Some(value))))
  }

  /**
   * `Config::set` on a configuration value: the new value, or the error; it
   * fails exactly on an unknown key or a flag given text other than "true" or "false".
   */
  function Assign(c: ConfigData, key: string, value: string): (r: Result<ConfigData>)
    ensures r.Err? <==>
      key !in ListKeys() || (IsFlag(ParseKey(key).value) && value != "true" && value != "false")
  {
    KnownIffListed(key);
    match ParseKey(key)
    case None => Err("Unknown config key: " + key)
    case Some(k) => Update(c, k, value)
  }

  // ------------------------------------------------------------------ properties

  /** Defaults: the backend priority list, no disabled backend, the default flags and no client id. */
  lemma DefaultsRead()
    ensures Field(DefaultConfig(), Priority) == Some("apt,winget,brew,snap,npm,pip")
    ensures Field(DefaultConfig(), Disabled) == Some("")
    ensures Field(DefaultConfig(), Verbose) == Some("false")
    ensures Field(DefaultConfig(), AutoConfirm) == Some("true")
    ensures Field(DefaultConfig(), CreateShims) == Some("true")
    ensures Field(DefaultConfig(), AutoRefresh) == Some("true")
    ensures Field(DefaultConfig(), Enabled) == Some("false")
    ensures Field(DefaultConfig(), ClientId) == None
  {
    DefaultPriorityRead();
  }

  /** The default priority list reads back as its comma-separated text. */
  lemma DefaultPriorityRead()
    ensures Field(DefaultConfig(), Priority) == Some("apt,winget,brew,snap,npm,pip")
    ensures Field(DefaultConfig(), Disabled) == Some("")
  {
    var p := DefaultBackends().priority;
    assert p[1..] == ["winget", "brew", "snap", "npm", "pip"];
    JoinedTail();
    assert Join(p, ",") == "apt" + "," + "winget,brew,snap,npm,pip";
    assert "apt" + "," + "winget,brew,snap,npm,pip" == "apt,winget,brew,snap,npm,pip";
  }

  /** The tail of the default priority list, joined piece by piece. */
  lemma JoinedTail()
    ensures Join(["winget", "brew", "snap", "npm", "pip"], ",") == "winget,brew,snap,npm,pip"
  {
    var p: seq<string> := ["winget", "brew", "snap", "npm", "pip"];
    assert p[1..] == ["brew", "snap", "npm", "pip"];
    assert p[1..][1..] == ["snap", "npm", "pip"];
    assert p[1..][1..][1..] == ["npm", "pip"];
    assert p[1..][1..][1..][1..] == ["pip"];
    assert Join(["npm", "pip"], ",") == "npm,pip";
    assert Join(["snap", "npm", "pip"], ",") == "snap,npm,pip";
    assert Join(["brew", "snap", "npm", "pip"], ",") == "brew,snap,npm,pip";
  }


  /** Setting a flag to "true" or "false" reads back the same text. */
  lemma SetFlagThenGet(c: ConfigData, k: Key, value: string)
    requires IsFlag(k) && (value == "true" || value == "false")
    ensures Assign(c, KeyName(k), value).Ok?
    ensures Lookup(Assign(c, KeyName(k), value).value, KeyName(k)) == Some(value)
  {
    ParseKeyName(k);
    var b := ParseBool(value).value;
    assert BoolString(b) == value;
    assert Field(Update(c, k, value).value, k) == Some(BoolString(b));
  }

  /** A flag given any other text is refused with "Invalid boolean". */
  lemma SetFlagInvalid(c: ConfigData, k: Key, value: string)
    requires IsFlag(k) && value != "true" && value != "false"
    ensures Assign(c, KeyName(k), value) == Err("Invalid boolean")
  {
    ParseKeyName(k);
  }

  /** A list key stores the trimmed pieces and reads back with ',' between them. */
  lemma SetListThenGet(c: ConfigData, k: Key, value: string)
    requires k == Priority || k == Disabled
    ensures Assign(c, KeyName(k), value).Ok?
    ensures Lookup(Assign(c, KeyName(k), value).value, KeyName(k)) == Some(Join(ParseList(value), ","))
  {
    ParseKeyName(k);
  }


  /** The client id is stored verbatim. */
  lemma SetClientId(c: ConfigData, value: string)
    ensures Assign(c, KeyName(ClientId), value) == Ok(c.(telemetry := c.telemetry.(clientId := Some(value))))
    ensures Lookup(Assign(c, KeyName(ClientId), value).value, KeyName(ClientId)) == Some(value)
  {
    ParseKeyName(ClientId);
    var c' := c.(telemetry := c.telemetry.(clientId := Some(value)));
    assert Update(c, ClientId, value) == Ok(c');
    assert Field(c', ClientId) == Some(value);
  }

  /** An unknown key is refused and names itself in the error. */
  lemma SetUnknownKey(c: ConfigData, key: string, value: string)
    requires key !in ListKeys()
    ensures Assign(c, key, value) == Err("Unknown config key: " + key)
  {
    KnownIffListed(key);
  }

  /** A successful `set` changes the setting its key names and no other. */
  lemma SetChangesOnlyItsKey(c: ConfigData, k: Key, value: string, other: Key)
    requires Update(c, k, value).Ok? && other != k
    ensures Field(Update(c, k, value).value, other) == Field(c, other)
  {
  }



  // ------------------------------------------------------------------ the mutable configuration

  /** `Config`: four sections that `set` updates in place. */
  class Config {
    var backends: BackendConfig
    var behavior: BehaviorConfig
    var shims: ShimConfig
    var telemetry: TelemetryConfig

    function Data(): ConfigData
      reads this
    {
      ConfigData(backends, behavior, shims, telemetry)
    }

    /** `Config::default`. */
    constructor Default()
      ensures Data() == DefaultConfig()
    {
      backends := DefaultBackends();
      behavior := DefaultBehavior();
      shims := DefaultShims();
      telemetry := DefaultTelemetry();
    }

    /** `Config::get`: answers only listed keys. */
    function Get(key: string): (r: Option<string>)
      reads this
      ensures r.Some? ==> key in ListKeys()
    {
      KnownIffListed(key);
      Lookup(Data(), key)
    }

    /**
     * `Config::set`: on success the configuration becomes the assigned one;
     * on an unknown key or a bad flag nothing changes and the error is returned.
     */
    method Set(key: string, value: string) returns (r: Result<()>)
      modifies this
      ensures Assign(old(Data()), key, value).Ok? ==> r == Ok(()) && Data() == Assign(old(Data()), key, value).value
      ensures Assign(old(Data()), key, value).Err? ==> r == Err(Assign(old(Data()), key, value).error) && Data() == old(Data())
    {
      var k := ParseKey(key);
      if k.None? {
        return Err("Unknown config key: " + key);
      }
      match k.value {
        case Priority => backends := backends.(priority := ParseList(value));
        case Disabled => backends := backends.(disabled := ParseList(value));
        case Verbose =>
          var b := ParseBool(value);
          if b.None? { return Err("Invalid boolean"); }
          behavior := behavior.(verbose := b.value);
        case AutoConfirm =>
          var b := ParseBool(value);
          if b.None? { return Err("Invalid boolean"); }
          behavior := behavior.(autoConfirm := b.value);
        case CreateShims =>
          var b := ParseBool(value);
          if b.None? { return Err("Invalid boolean"); }
          behavior := behavior.(createShims := b.value);
        case AutoRefresh =>
          var b := ParseBool(value);
          if b.None? { return Err("Invalid boolean"); }
          shims := shims.(autoRefresh := b.value);
        case Enabled =>
          var b := ParseBool(value);
          if b.None? { return Err("Invalid boolean"); }
          telemetry := telemetry.(enabled := b.value);
        case ClientId => telemetry := telemetry.(clientId := Some(value));
      }
      r := Ok(());
    }
  }
}
