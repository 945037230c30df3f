/**
  The OceanStor backend plugin: initialisation from a backend configuration,
  and capability negotiation. The array client's replies (login, system
  information, license features) and the product-version helper are
  parameters; the model records which client calls were made, in order.
 */
module OceanstorPlugin {
  import opened GoValues
  import opened Capabilities

  /** The array client as configured: the connection settings it is built with. */
  datatype Client = Client(urls: seq<string>, user: string, password: string, vstoreName: string, parallelNum: string)

  /** The plugin's state: the client and product fixed at initialisation, and
      the capabilities last reported. */
  datatype Plugin = Plugin(cli: Option<Client>, product: string, capabilities: Option<map<string, Value>>)

  /** A call made on the array client. */
  datatype ClientCall = Login | GetSystem | Logout

  const UrlsMissing: string := "urls must be provided"
  const UserMissing: string := "user must be provided"
  const PasswordMissing: string := "password must be provided"

  /** `config["urls"].([]interface{})` is a non-empty list. */
  predicate HasUrls(config: map<string, Value>)
  {
    "urls" in config && config["urls"].List? && |config["urls"].items| > 0
  }

  /** Every configured URL is a string; the source converts them with an
      unchecked type assertion. */
  predicate UrlsAreStrings(config: map<string, Value>)
  {
    HasUrls(config) ==> forall i | 0 <= i < |config["urls"].items| :: config["urls"].items[i].Str?
  }

  /** The configuration passes the checks made before the array is contacted. */
  predicate ConfigComplete(config: map<string, Value>)
  {
    HasUrls(config) && AsString(Index(config, "user")).Some? && AsString(Index(config, "password")).Some?
  }

  /** The first configuration check that fails, in the order the source makes them. */
  function ConfigProblem(config: map<string, Value>): (r: Option<Error>)
    ensures r.None? <==> ConfigComplete(config)
    ensures !HasUrls(config) ==> r == Some(ConfigError(UrlsMissing))
    ensures HasUrls(config) && !("user" in config && config["user"].Str?) ==> r == Some(ConfigError(UserMissing))
    ensures (HasUrls(config) && "user" in config && config["user"].Str?
             && !("password" in config && config["password"].Str?))
            ==> r == Some(ConfigError(PasswordMissing))
  {
    if !HasUrls(config) then Some(ConfigError(UrlsMissing))
    else if AsString(Index(config, "user")).None? then Some(ConfigError(UserMissing))
    else if AsString(Index(config, "password")).None? then Some(ConfigError(PasswordMissing))
    else None
  }

  /** `v, _ := m[k].(string)`: the string, or "" when absent or of another type. */
  function StringOrEmpty(m: map<string, Value>, k: string): (r: string)
    ensures k in m && m[k].Str? ==> r == m[k].s
    ensures !(k in m && m[k].Str?) ==> r == ""
  {
    match AsString(Index(m, k))
    case Some(v) => v
    case None => ""
  }

  /** The client the configuration describes. */
  function ConfiguredClient(config: map<string, Value>): (c: Client)
    requires ConfigComplete(config) && UrlsAreStrings(config)
    ensures |c.urls| == |config["urls"].items|
    ensures forall i | 0 <= i < |c.urls| :: config["urls"].items[i] == Str(c.urls[i])
    ensures Str(c.user) == config["user"] && Str(c.password) == config["password"]
    ensures "vstoreName" in config && config["vstoreName"].Str? ==> Str(c.vstoreName) == config["vstoreName"]
    ensures !("vstoreName" in config && config["vstoreName"].Str?) ==> c.vstoreName == ""
    ensures "parallelNum" in config && config["parallelNum"].Str? ==> Str(c.parallelNum) == config["parallelNum"]
    ensures !("parallelNum" in config && config["parallelNum"].Str?) ==> c.parallelNum == ""
  {
    var items := config["urls"].items;
    Client(seq(|items|, i requires 0 <= i < |items| => items[i].s),
           config["user"].s, config["password"].s,
           StringOrEmpty(config, "vstoreName"), StringOrEmpty(config, "parallelNum"))
  }

  /** The plugin after `init`, the error it returned, and the client calls made. */
  datatype InitOutcome = InitOutcome(plugin: Plugin, err: Option<Error>, calls: seq<ClientCall>)

  /** `init(config, keepLogin)`. `login` is the login error, `system` the reply
      to the system query, and `productVersion` the helper that reads the
      product name out of it. */
  function Init<S>(p: Plugin, config: map<string, Value>, keepLogin: bool, login: Option<Error>,
                   system: Result<S>, productVersion: S -> Result<string>): (r: InitOutcome)
    requires UrlsAreStrings(config)
    ensures r.err.Some? ==> r.plugin == p
    ensures r.err.None? <==> ConfigComplete(config) && login.None? && system.Ok? && productVersion(system.value).Ok?
    ensures r.err.None? ==> r.calls == [Login, GetSystem] + (if keepLogin then [] else [Logout])
    ensures r.err.None? ==> r.plugin == p.(cli := Some(ConfiguredClient(config)), product := productVersion(system.value).value)
    ensures !ConfigComplete(config) ==> r.err == ConfigProblem(config) && r.calls == []
    ensures ConfigComplete(config) ==> |r.calls| > 0 && r.calls[0] == Login
    ensures ConfigComplete(config) && login.Some? ==> r.err == login && r.calls == [Login]
    ensures ConfigComplete(config) && login.None? && system.Err? ==> r.err == Some(system.error)
    ensures (ConfigComplete(config) && login.None? && system.Ok? && productVersion(system.value).Err?)
            ==> r.err == Some(productVersion(system.value).error)
    ensures Logout in r.calls <==> r.err.None? && !keepLogin
  {
    match ConfigProblem(config)
    case Some(e) => InitOutcome(p, Some(e), [])
    case None =>
      var cli := ConfiguredClient(config);
      if login.Some? then InitOutcome(p, login, [Login])
      else
        match system
        case Err(e) => InitOutcome(p, Some(e), [Login, GetSystem])
        case Ok(s) =>
          match productVersion(s)
          case Err(e) => InitOutcome(p, Some(e), [Login, GetSystem])
          case Ok(product) =>
            var calls := if keepLogin then [Login, GetSystem] else [Login, GetSystem, Logout];
            InitOutcome(p.(cli := Some(cli), product := product), None, calls)
  }

  /** `UpdateBackendCapabilities()`: `features` is the array's reply to the
      license query. */
  function UpdateBackendCapabilities<F>(p: Plugin, features: Result<F>, isSupportFeature: (F, string) -> bool)
    : (r: (Plugin, Result<map<string, Value>>))
    requires p.cli.Some?
    ensures features.Err? ==> r == (p, Err(features.error))
    ensures features.Ok? ==> r.1.Ok? && r.0 == p.(capabilities := Some(r.1.value))
    ensures features.Ok? ==> r.1.value.Keys == CapabilityNames
    ensures features.Ok? ==>
              var caps := r.1.value;
              && caps["SupportThin"] == Bool(isSupportFeature(features.value, "SmartThin"))
              && caps["SupportQoS"] == Bool(isSupportFeature(features.value, "SmartQoS"))
              && caps["SupportMetro"] == Bool(isSupportFeature(features.value, "HyperMetro"))
              && caps["SupportMetroNAS"] == Bool(isSupportFeature(features.value, "HyperMetroNAS"))
              && caps["SupportReplication"] == Bool(isSupportFeature(features.value, "HyperReplication"))
              && (caps["SupportThick"] == Bool(true) <==> !IsDoradoFamily(p.product))
              && (caps["SupportApplicationType"] == Bool(true) <==> p.product == DoradoV6)
              && caps["SupportClone"] == Bool(true)
  {
    match features
    case Err(e) => (p, Err(e))
    case Ok(f) =>
      DeriveKeys(f, p.product, isSupportFeature);
      DeriveFlags(f, p.product, isSupportFeature);
      var caps := Derive(f, p.product, isSupportFeature);
      (p.(capabilities := Some(caps)), Ok(caps))
  }

  /** A failed `init` leaves no trace in the plugin, so initialising again is
      the same as initialising for the first time. */
  lemma InitRetry<S>(p: Plugin, config: map<string, Value>, keepLogin: bool, login: Option<Error>,
                     system: Result<S>, productVersion: S -> Result<string>,
                     config2: map<string, Value>, keepLogin2: bool, login2: Option<Error>, system2: Result<S>)
    requires UrlsAreStrings(config) && UrlsAreStrings(config2)
    requires Init(p, config, keepLogin, login, system, productVersion).err.Some?
    ensures var q := Init(p, config, keepLogin, login, system, productVersion).plugin;
            Init(q, config2, keepLogin2, login2, system2, productVersion) == Init(p, config2, keepLogin2, login2, system2, productVersion)
  {
  }

  /** When the array cannot be queried after a successful login, `init` returns
      without logging out, whatever `keepLogin` says. */
  lemma InitFailureAfterLoginKeepsSession<S>(p: Plugin, config: map<string, Value>, keepLogin: bool,
                                            system: Result<S>, productVersion: S -> Result<string>)
    requires UrlsAreStrings(config) && ConfigComplete(config)
    requires system.Err? || productVersion(system.value).Err?
    ensures Init(p, config, keepLogin, None, system, productVersion).calls == [Login, GetSystem]
  {
  }

  /** The product fixed by `init` is what decides the thick and application-type
      capabilities reported afterwards. */
  lemma InitThenCapabilities<S, F>(p: Plugin, config: map<string, Value>, keepLogin: bool,
                                   system: Result<S>, productVersion: S -> Result<string>,
                                   features: F, isSupportFeature: (F, string) -> bool)
    requires UrlsAreStrings(config) && ConfigComplete(config)
    requires system.Ok? && productVersion(system.value).Ok?
    ensures var q := Init(p, config, keepLogin, None, system, productVersion).plugin;
            var product := productVersion(system.value).value;
            && q.cli.Some?
            && var caps := UpdateBackendCapabilities(q, Ok(features), isSupportFeature).1.value;
            && (caps["SupportThick"] == Bool(true) <==> !IsDoradoFamily(product))
            && (caps["SupportApplicationType"] == Bool(true) <==> product == DoradoV6)
  {
  }

  /** Refreshing the capabilities again with the same license reply changes nothing. */
  lemma CapabilitiesRefreshIdempotent<F>(p: Plugin, features: F, isSupportFeature: (F, string) -> bool)
    requires p.cli.Some?
    ensures var once := UpdateBackendCapabilities(p, Ok(features), isSupportFeature);
            UpdateBackendCapabilities(once.0, Ok(features), isSupportFeature) == once
  {
  }
}
