/**
 * The configuration value the engine receives and its startup validation
 * (Config.Validate). Loading from files, flags and the environment is not
 * part of this module.
 */
module Config {
  import opened Wrappers
  import Net

  /** time.Duration, in nanoseconds. */
  type Duration = nat

  const Second: nat := 1_000_000_000

  /** The whole seconds of a duration, as uint32(d.Seconds()) yields them for durations that fit. */
  function WholeSeconds(d: Duration): nat
  {
    d / Second
  }

  datatype TailscaleConfig = TailscaleConfig(
    clientId: string,
    clientSecret: string,
    apiKey: string,
    tailnet: string,
    pollInterval: Duration)

  /** Reverse-record settings; the sizes are subnet boundaries in bits (8/16/24 and 32/48/64 are meaningful). */
  datatype PTRConfig = PTRConfig(
    enabled: bool,
    ipv4Zone: string,
    ipv4Subnet: string,
    ipv4SubnetSize: int,
    ipv6Enabled: bool,
    ipv6Zone: string,
    ipv6Subnet: string,
    ipv6SubnetSize: int)

  datatype BindConfig = BindConfig(
    server: string,
    port: int,
    zone: string,
    keyName: string,
    keySecret: string,
    algorithm: string,
    ttl: Duration,
    updateInterval: Duration,
    ptr: PTRConfig)

  datatype GeneralConfig = GeneralConfig(logLevel: string, dryRun: bool)

  datatype Config = Config(tailscale: TailscaleConfig, bind: BindConfig, general: GeneralConfig)

  /** The reasons Validate gives, one per check, in the order the checks run. */
  datatype ConfigError =
    | MissingClientId
    | MissingClientSecret
    | MissingTailnet
    | MissingServer
    | MissingZone
    | MissingKeyName
    | MissingKeySecret
    | MissingIPv4Zone
    | InvalidIPv4Subnet
    | UnsupportedIPv4SubnetSize
    | MissingIPv6Zone
    | MissingIPv6Subnet
    | InvalidIPv6Subnet
    | UnsupportedIPv6SubnetSize

  predicate SupportedIPv4Size(n: int) { n == 8 || n == 16 || n == 24 }

  predicate SupportedIPv6Size(n: int) { n == 32 || n == 48 || n == 64 }

  /** Either an API key, or both halves of an OAuth client. */
  predicate HasCredentials(t: TailscaleConfig)
  {
    t.apiKey != "" || (t.clientId != "" && t.clientSecret != "")
  }

  predicate IPv4ReverseReady(p: PTRConfig)
  {
    p.ipv4Zone != "" && (p.ipv4Subnet == "" || Net.ParseCIDR(p.ipv4Subnet).Some?) && SupportedIPv4Size(p.ipv4SubnetSize)
  }

  predicate IPv6ReverseReady(p: PTRConfig)
  {
    p.ipv6Zone != "" && p.ipv6Subnet != "" && Net.ParseCIDR(p.ipv6Subnet).Some? && SupportedIPv6Size(p.ipv6SubnetSize)
  }

  /** What a configuration must satisfy, stated as one condition. */
  predicate Acceptable(c: Config)
  {
    && HasCredentials(c.tailscale)
    && c.tailscale.tailnet != ""
    && c.bind.server != ""
    && c.bind.zone != ""
    && c.bind.keyName != ""
    && c.bind.keySecret != ""
    && (c.bind.ptr.enabled ==> IPv4ReverseReady(c.bind.ptr) && (c.bind.ptr.ipv6Enabled ==> IPv6ReverseReady(c.bind.ptr)))
  }

  /** The position of each check in the order Validate makes them. */
  function Rank(e: ConfigError): nat
  {
    match e
    case MissingClientId => 0
    case MissingClientSecret => 1
    case MissingTailnet => 2
    case MissingServer => 3
    case MissingZone => 4
    case MissingKeyName => 5
    case MissingKeySecret => 6
    case MissingIPv4Zone => 7
    case InvalidIPv4Subnet => 8
    case UnsupportedIPv4SubnetSize => 9
    case MissingIPv6Zone => 10
    case MissingIPv6Subnet => 11
    case InvalidIPv6Subnet => 12
    case UnsupportedIPv6SubnetSize => 13
  }

  /**
   * Whether the check that reports `e` passes on `c`. The reverse-record checks
   * pass vacuously when those records are disabled.
   */
  predicate Passes(c: Config, e: ConfigError)
  {
    var t := c.tailscale;
    var b := c.bind;
    var p := c.bind.ptr;
    match e
    case MissingClientId => t.clientId != "" || t.apiKey != ""
    case MissingClientSecret => t.clientSecret != "" || t.apiKey != ""
    case MissingTailnet => t.tailnet != ""
    case MissingServer => b.server != ""
    case MissingZone => b.zone != ""
    case MissingKeyName => b.keyName != ""
    case MissingKeySecret => b.keySecret != ""
    case MissingIPv4Zone => !p.enabled || p.ipv4Zone != ""
    case InvalidIPv4Subnet => !p.enabled || p.ipv4Subnet == "" || Net.ParseCIDR(p.ipv4Subnet).Some?
    case UnsupportedIPv4SubnetSize => !p.enabled || SupportedIPv4Size(p.ipv4SubnetSize)
    case MissingIPv6Zone => !p.enabled || !p.ipv6Enabled || p.ipv6Zone != ""
    case MissingIPv6Subnet => !p.enabled || !p.ipv6Enabled || p.ipv6Subnet != ""
    case InvalidIPv6Subnet => !p.enabled || !p.ipv6Enabled || Net.ParseCIDR(p.ipv6Subnet).Some?
    case UnsupportedIPv6SubnetSize => !p.enabled || !p.ipv6Enabled || SupportedIPv6Size(p.ipv6SubnetSize)
  }

  /** Config.Validate: a chain of guarded early returns. */
  function Validate(c: Config): (r: Outcome<ConfigError>)
    ensures r.Pass? <==> Acceptable(c)
  {
    var t := c.tailscale;
    var b := c.bind;
    var p := c.bind.ptr;
    if t.clientId == "" && t.apiKey == "" then Fail(MissingClientId)
    else if t.clientSecret == "" && t.apiKey == "" then Fail(MissingClientSecret)
    else if t.tailnet == "" then Fail(MissingTailnet)
    else if b.server == "" then Fail(MissingServer)
    else if b.zone == "" then Fail(MissingZone)
    else if b.keyName == "" then Fail(MissingKeyName)
    else if b.keySecret == "" then Fail(MissingKeySecret)
    else if !p.enabled then Pass
    else if p.ipv4Zone == "" then Fail(MissingIPv4Zone)
    else if p.ipv4Subnet != "" && Net.ParseCIDR(p.ipv4Subnet).None? then Fail(InvalidIPv4Subnet)
    else if !SupportedIPv4Size(p.ipv4SubnetSize) then Fail(UnsupportedIPv4SubnetSize)
    else if !p.ipv6Enabled then Pass
    else if p.ipv6Zone == "" then Fail(MissingIPv6Zone)
    else if p.ipv6Subnet == "" then Fail(MissingIPv6Subnet)
    else if Net.ParseCIDR(p.ipv6Subnet).None? then Fail(InvalidIPv6Subnet)
    else if !SupportedIPv6Size(p.ipv6SubnetSize) then Fail(UnsupportedIPv6SubnetSize)
    else Pass
  }


  /** Validate reports the first check, in source order, that fails; it passes exactly when every check does. */
  lemma ValidateReportsFirstFailure(c: Config)
    ensures Validate(c).Pass? ==> forall e :: Passes(c, e)
    ensures Validate(c).Fail? ==> !Passes(c, Validate(c).error)
    ensures Validate(c).Fail? ==> forall e :: Rank(e) < Rank(Validate(c).error) ==> Passes(c, e)
  {
    var r := Validate(c);
    if r.Fail? {
      forall e | Rank(e) < Rank(r.error)
        ensures Passes(c, e)
      {
      }
    } else {
      forall e
        ensures Passes(c, e)
      {
      }
    }
  }
}
