/**
 * The Bind dynamic-update client: construction, TSIG key selection, the
 * reverse-zone classifier in both directions (address to zone, reverse owner
 * name to zone) and PTR record creation.
 */
module Bind {
  import opened Wrappers
  import opened Text
  import opened Net
  import Config

  /** A Client is fixed once built: `ttl` is in whole seconds, `ptrConfig` None stands for a nil pointer. */
  datatype Client = Client(
    server: string,
    port: int,
    zone: string,
    keyName: string,
    keySecret: string,
    algorithm: string,
    ttl: nat,
    ptrConfig: Option<Config.PTRConfig>)

  /** A desired record; `rtype` is "A", "AAAA" or "PTR" as the synthesizer sets it. */
  datatype DNSRecord = DNSRecord(name: string, value: string, ttl: nat, rtype: string)

  datatype ClientError = ServerRequired | ZoneRequired | KeyNameRequired | KeySecretRequired

  /** NewClient: the four required fields are checked in this order; every field is then kept as given. */
  function NewClient(
    server: string,
    port: int,
    zone: string,
    keyName: string,
    keySecret: string,
    algorithm: string,
    ttl: Config.Duration,
    ptrConfig: Option<Config.PTRConfig>): (r: Result<Client, ClientError>)
    ensures r.Success? <==> server != "" && zone != "" && keyName != "" && keySecret != ""
    ensures r.Failure? ==>
      && (r.error == ServerRequired <==> server == "")
      && (r.error == ZoneRequired <==> server != "" && zone == "")
      && (r.error == KeyNameRequired <==> server != "" && zone != "" && keyName == "")
      && (r.error == KeySecretRequired <==> server != "" && zone != "" && keyName != "" && keySecret == "")
    ensures r.Success? ==>
      && r.value.server == server && r.value.port == port && r.value.zone == zone
      && r.value.keyName == keyName && r.value.keySecret == keySecret
      && r.value.algorithm == algorithm && r.value.ttl == Config.WholeSeconds(ttl)
      && r.value.ptrConfig == ptrConfig
  {
    if server == "" then Failure(ServerRequired)
    else if zone == "" then Failure(ZoneRequired)
    else if keyName == "" then Failure(KeyNameRequired)
    else if keySecret == "" then Failure(KeySecretRequired)
    else Success(Client(server, port, zone, keyName, keySecret, algorithm, Config.WholeSeconds(ttl), ptrConfig))
  }

  /** The HMAC algorithm names of section 6 of RFC 8945 that the client signs with. */
  const SupportedAlgorithms: set<string> := {"hmac-md5", "hmac-sha1", "hmac-sha256", "hmac-sha384", "hmac-sha512"}

  const DefaultAlgorithm: string := "hmac-sha256"

  /** The TSIG key record: the key's owner name and the algorithm name as a fully-qualified name. */
  datatype TsigKey = TsigKey(name: string, algorithm: string)

  datatype TsigError = UnsupportedAlgorithm(algorithm: string)

  /** createTSIGKey: an empty algorithm means hmac-sha256; anything outside the supported set is refused. */
  function CreateTSIGKey(c: Client): (r: Result<TsigKey, TsigError>)
    ensures var alg := if c.algorithm == "" then DefaultAlgorithm else c.algorithm;
            && (r.Success? <==> alg in SupportedAlgorithms)
            && (r.Success? ==> r.value == TsigKey(c.keyName, alg + "."))
            && (r.Failure? ==> r.error == UnsupportedAlgorithm(alg))
  {
    var algorithm := if c.algorithm == "" then "hmac-sha256" else c.algorithm;
    if algorithm == "hmac-md5" || algorithm == "hmac-sha1" || algorithm == "hmac-sha256"
       || algorithm == "hmac-sha384" || algorithm == "hmac-sha512"
    then Success(TsigKey(c.keyName, algorithm + "."))
    else Failure(UnsupportedAlgorithm(algorithm))
  }

  /** isIPInSubnet: false for an empty subnet, an address or a CIDR that does not parse. */
  function IsIPInSubnet(ipStr: string, subnetStr: string): (r: bool)
    ensures r ==> subnetStr != "" && ParseIP(ipStr).Some? && ParseCIDR(subnetStr).Some?
  {
    if subnetStr == "" then false
    else match ParseIP(ipStr)
      case None => false
      case Some(ip) =>
        match ParseCIDR(subnetStr)
        case None => false
        case Some(network) => NetContains(network, ip)
  }

  /** The address text takes the IPv4 paths: it parses and IP.To4 succeeds (dotted quads and ::ffff:-mapped text). */
  predicate IsIPv4Text(s: string)
  {
    ParseIP(s).Some? && To4(ParseIP(s).value).Some?
  }

  /** The address text takes the IPv6 paths: it parses and IP.To4 fails. */
  predicate IsIPv6Text(s: string)
  {
    ParseIP(s).Some? && To4(ParseIP(s).value).None?
  }

  datatype ZoneError =
    | InvalidIP(ip: string)
    | IPv6Disabled
    | InvalidIPv4(ip: string)
    | UnsupportedIPv4Size(size: int)
    | InvalidIPv6(ip: string)
    | ConversionFailed
    | UnsupportedIPv6Size(size: int)
    | NotEnoughNibbles(size: int)

  const IPv4ZoneSuffix: string := ".in-addr.arpa"
  const IPv4NameSuffix: string := ".in-addr.arpa."
  const IPv6ZoneSuffix: string := ".ip6.arpa"
  const IPv6NameSuffix: string := ".ip6.arpa."

  /** The `%d` renderings of `octets`, last octet first. */
  function ReversedDecimals(octets: seq<byte>): (labels: seq<string>)
    ensures |labels| == |octets|
  {
    seq(|octets|, k requires 0 <= k < |octets| => Decimal(octets[|octets| - 1 - k]))
  }

  /**
   * generateIPv4PTRZone (section 3.5 of RFC 1035): the first size/8 octets,
   * most significant last, under in-addr.arpa.
   */
  function GenerateIPv4PTRZone(ipStr: string, subnetSize: int): (r: Result<string, ZoneError>)
    ensures r.Success? <==> IsIPv4Text(ipStr) && Config.SupportedIPv4Size(subnetSize)
    ensures !IsIPv4Text(ipStr) ==> r == Failure(InvalidIPv4(ipStr))
    ensures IsIPv4Text(ipStr) && !Config.SupportedIPv4Size(subnetSize) ==> r == Failure(UnsupportedIPv4Size(subnetSize))
    ensures r.Success? ==>
      r.value == Join(ReversedDecimals(To4(ParseIP(ipStr).value).value[..subnetSize / 8]), '.') + IPv4ZoneSuffix
  {
    match ParseIP(ipStr)
    case None => Failure(InvalidIPv4(ipStr))
    case Some(ip) =>
      match To4(ip)
      case None => Failure(InvalidIPv4(ipStr))
      case Some(ipv4) =>
        if subnetSize == 8 then
          JoinOne(ReversedDecimals(ipv4[..1]), '.');
          Success(Decimal(ipv4[0]) + ".in-addr.arpa")
        else if subnetSize == 16 then
          JoinTwo(ReversedDecimals(ipv4[..2]), '.');
          Success(Decimal(ipv4[1]) + "." + Decimal(ipv4[0]) + ".in-addr.arpa")
        else if subnetSize == 24 then
          JoinThree(ReversedDecimals(ipv4[..3]), '.');
          Success(Decimal(ipv4[2]) + "." + Decimal(ipv4[1]) + "." + Decimal(ipv4[0]) + ".in-addr.arpa")
        else
          Failure(UnsupportedIPv4Size(subnetSize))
  }

  /** One hexadecimal label per nibble: the low nibble of a byte first, bytes from the last to the first. */
  function NibbleLabels(ip: IP): (labels: seq<string>)
    ensures |labels| == 32
    ensures forall k :: 0 <= k < 32 ==> |labels[k]| == 1 && IsHexDigit(labels[k][0]) && '.' !in labels[k] && 'n' !in labels[k]
  {
    seq(32, k requires 0 <= k < 32 => [HexChar(if k % 2 == 0 then ip[15 - k / 2] % 16 else ip[15 - k / 2] / 16)])
  }

  /** ipv6ToReverseDNS (section 2.5 of RFC 3596): the 32 nibble labels under ip6.arpa., or "" when the text does not parse. */
  function ReverseDNS6(ipStr: string): string
  {
    match ParseIP(ipStr)
    case None => ""
    case Some(ip) => Join(NibbleLabels(ip), '.') + IPv6NameSuffix
  }

  /** The loop of ipv6ToReverseDNS: appends the two nibble labels of each byte, from byte 15 down to byte 0. */
  method Ipv6ToReverseDNS(ipStr: string) returns (r: string)
    ensures r == ReverseDNS6(ipStr)
  {
    var parsed := ParseIP(ipStr);
    if parsed.None? {
      return "";
    }
    var ip := parsed.value;
    ghost var labels := NibbleLabels(ip);
    var nibbles: seq<string> := [];
    var i := |ip| - 1;
    while i >= 0
      invariant -1 <= i < 16
      invariant nibbles == labels[..2 * (15 - i)]
    {
      NibbleLabelsStep(ip, i);
      nibbles := nibbles + [[HexChar(ip[i] % 16)]];
      nibbles := nibbles + [[HexChar(ip[i] / 16)]];
      i := i - 1;
    }
    assert labels[..32] == labels;
    r := Join(nibbles, '.') + IPv6NameSuffix;
  }

  /** The labels of byte i follow those of the bytes after it: low nibble, then high nibble. */
  lemma NibbleLabelsStep(ip: IP, i: nat)
    requires i < 16
    ensures NibbleLabels(ip)[..2 * (16 - i)] == NibbleLabels(ip)[..2 * (15 - i)] + [[HexChar(ip[i] % 16)]] + [[HexChar(ip[i] / 16)]]
  {
    var labels := NibbleLabels(ip);
    var n := 2 * (15 - i);
    assert n % 2 == 0 && n / 2 == 15 - i;
    assert (n + 1) % 2 == 1 && (n + 1) / 2 == 15 - i;
    assert labels[n] == [HexChar(ip[i] % 16)];
    assert labels[n + 1] == [HexChar(ip[i] / 16)];
    assert labels[..n + 2] == labels[..n] + [labels[n]] + [labels[n + 1]];
  }

  /** The number of nibbles a supported IPv6 boundary keeps (size / 4), 0 otherwise. */
  function NibblesToUse(subnetSize: int): nat
  {
    if subnetSize == 32 then 8 else if subnetSize == 48 then 12 else if subnetSize == 64 then 16 else 0
  }

  /** generateIPv6PTRZone: the network-side nibble labels of the reverse name, under ip6.arpa. */
  function GenerateIPv6PTRZone(ipStr: string, subnetSize: int): Result<string, ZoneError>
  {
    match ParseIP(ipStr)
    case None => Failure(InvalidIPv6(ipStr))
    case Some(ip) =>
      if To4(ip).Some? then Failure(InvalidIPv6(ipStr))
      else
        var nibbles := ReverseDNS6(ipStr);
        if nibbles == "" then Failure(ConversionFailed)
        else
          var trimmed := TrimSuffix(nibbles, IPv6NameSuffix);
          if !Config.SupportedIPv6Size(subnetSize) then Failure(UnsupportedIPv6Size(subnetSize))
          else
            var nibblesToUse := NibblesToUse(subnetSize);
            var parts := Split(trimmed, '.');
            if |parts| < nibblesToUse then Failure(NotEnoughNibbles(subnetSize))
            else Success(Join(parts[|parts| - nibblesToUse..], '.') + IPv6ZoneSuffix)
  }

  /**
   * getPTRZoneForIP: the reverse zone of an address for the configured
   * boundary. Go dereferences the PTR configuration once the address parses.
   */
  function GetPTRZoneForIP(c: Client, ipStr: string, isIPv6: bool): (r: Result<string, ZoneError>)
    requires c.ptrConfig.Some? || ParseIP(ipStr).None?
    ensures ParseIP(ipStr).None? ==> r == Failure(InvalidIP(ipStr))
    ensures isIPv6 && ParseIP(ipStr).Some? && !c.ptrConfig.value.ipv6Enabled ==> r == Failure(IPv6Disabled)
    ensures isIPv6 && ParseIP(ipStr).Some? && c.ptrConfig.value.ipv6Enabled ==>
      r == GenerateIPv6PTRZone(ipStr, c.ptrConfig.value.ipv6SubnetSize)
    ensures !isIPv6 && ParseIP(ipStr).Some? ==> r == GenerateIPv4PTRZone(ipStr, c.ptrConfig.value.ipv4SubnetSize)
    ensures r.Success? ==> if isIPv6 then HasSuffix(r.value, IPv6ZoneSuffix) else HasSuffix(r.value, IPv4ZoneSuffix)
  {
    match ParseIP(ipStr)
    case None => Failure(InvalidIP(ipStr))
    case Some(_) =>
      if isIPv6 then
        if !c.ptrConfig.value.ipv6Enabled then Failure(IPv6Disabled)
        else
          IPv6ZoneShape(ipStr, c.ptrConfig.value.ipv6SubnetSize);
          GenerateIPv6PTRZone(ipStr, c.ptrConfig.value.ipv6SubnetSize)
      else
        GenerateIPv4PTRZone(ipStr, c.ptrConfig.value.ipv4SubnetSize)
  }

  /** The labels extractIPv4ZoneFromPTRName splits a reverse owner name into. */
  function IPv4NameLabels(ptrName: string): seq<string>
  {
    Split(TrimSuffix(TrimSuffix(ptrName, IPv4NameSuffix), "."), '.')
  }

  /** The labels extractIPv6ZoneFromPTRName splits a reverse owner name into. */
  function IPv6NameLabels(ptrName: string): seq<string>
  {
    Split(TrimSuffix(TrimSuffix(ptrName, IPv6NameSuffix), "."), '.')
  }

  /** The IPv4 boundary size, when reverse records are configured and enabled. */
  predicate PtrEnabled(c: Client)
  {
    c.ptrConfig.Some? && c.ptrConfig.value.enabled
  }

  /**
   * extractIPv4ZoneFromPTRName: from a four-label reverse name, the labels of
   * the network side of the boundary; "" when that cannot be done.
   */
  function ExtractIPv4Zone(c: Client, ptrName: string): (r: string)
    ensures r == "" <==> !PtrEnabled(c) || |IPv4NameLabels(ptrName)| != 4
                         || !Config.SupportedIPv4Size(c.ptrConfig.value.ipv4SubnetSize)
    ensures r != "" ==>
      r == Join(IPv4NameLabels(ptrName)[4 - c.ptrConfig.value.ipv4SubnetSize / 8..], '.') + IPv4ZoneSuffix
  {
    if c.ptrConfig.None? || !c.ptrConfig.value.enabled then ""
    else
      var name := TrimSuffix(TrimSuffix(ptrName, ".in-addr.arpa."), ".");
      var octets := Split(name, '.');
      if |octets| != 4 then ""
      else
        var size := c.ptrConfig.value.ipv4SubnetSize;
        if size == 8 then
          JoinOne(octets[3..], '.');
          octets[3] + ".in-addr.arpa"
        else if size == 16 then
          JoinTwo(octets[2..], '.');
          octets[2] + "." + octets[3] + ".in-addr.arpa"
        else if size == 24 then
          JoinThree(octets[1..], '.');
          octets[1] + "." + octets[2] + "." + octets[3] + ".in-addr.arpa"
        else ""
  }

  /**
   * extractIPv6ZoneFromPTRName: from a reverse name of at least eight labels,
   * the last size/4 labels; "" when that cannot be done.
   */
  function ExtractIPv6Zone(c: Client, ptrName: string): (r: string)
    ensures r == "" <==> !PtrEnabled(c) || !c.ptrConfig.value.ipv6Enabled || |IPv6NameLabels(ptrName)| < 8
                         || !Config.SupportedIPv6Size(c.ptrConfig.value.ipv6SubnetSize)
                         || |IPv6NameLabels(ptrName)| < NibblesToUse(c.ptrConfig.value.ipv6SubnetSize)
    ensures r != "" ==>
      var labels := IPv6NameLabels(ptrName);
      r == Join(labels[|labels| - NibblesToUse(c.ptrConfig.value.ipv6SubnetSize)..], '.') + IPv6ZoneSuffix
  {
    if c.ptrConfig.None? || !c.ptrConfig.value.enabled || !c.ptrConfig.value.ipv6Enabled then ""
    else
      var name := TrimSuffix(TrimSuffix(ptrName, ".ip6.arpa."), ".");
      var nibbles := Split(name, '.');
      if |nibbles| < 8 then ""
      else
        var size := c.ptrConfig.value.ipv6SubnetSize;
        if !Config.SupportedIPv6Size(size) then ""
        else
          var nibblesToUse := NibblesToUse(size);
          if |nibbles| < nibblesToUse then ""
          else Join(nibbles[|nibbles| - nibblesToUse..], '.') + ".ip6.arpa"
  }

  /** The reverse owner name CreatePTRRecord writes for the four dot-separated pieces of IPv4 text. */
  function ReverseIPv4Name(parts: seq<string>): string
    requires |parts| == 4
  {
    parts[3] + "." + parts[2] + "." + parts[1] + "." + parts[0] + IPv4NameSuffix
  }

  datatype PtrError = InvalidIPAddress(ip: string) | InvalidIPv4Format(ip: string)

  /**
   * CreatePTRRecord: None (no record, no error) when reverse records are off
   * for the address's family or the address lies outside the configured
   * subnet; an error only for text that does not parse, or IPv4 text that
   * does not split into four dot-separated pieces.
   */
  function CreatePTRRecord(c: Client, ipStr: string, hostname: string): (r: Result<Option<DNSRecord>, PtrError>)
    ensures !PtrEnabled(c) ==> r == Success(None)
    ensures PtrEnabled(c) && ParseIP(ipStr).None? ==> r == Failure(InvalidIPAddress(ipStr))
    ensures r.Failure? ==> PtrEnabled(c) && (ParseIP(ipStr).None? || (IsIPv4Text(ipStr) && |Split(ipStr, '.')| != 4))
    ensures PtrEnabled(c) && IsIPv4Text(ipStr) ==>
      if !IsIPInSubnet(ipStr, c.ptrConfig.value.ipv4Subnet) then r == Success(None)
      else if |Split(ipStr, '.')| != 4 then r == Failure(InvalidIPv4Format(ipStr))
      else r == Success(Some(DNSRecord(ReverseIPv4Name(Split(ipStr, '.')), hostname, c.ttl, "PTR")))
    ensures PtrEnabled(c) && IsIPv6Text(ipStr) ==>
      if !c.ptrConfig.value.ipv6Enabled || !IsIPInSubnet(ipStr, c.ptrConfig.value.ipv6Subnet) then r == Success(None)
      else r == Success(Some(DNSRecord(ReverseDNS6(ipStr), hostname, c.ttl, "PTR")))
  {
    if c.ptrConfig.None? || !c.ptrConfig.value.enabled then Success(None)
    else match ParseIP(ipStr)
      case None => Failure(InvalidIPAddress(ipStr))
      case Some(ip) =>
        var p := c.ptrConfig.value;
        if To4(ip).Some? then
          if !IsIPInSubnet(ipStr, p.ipv4Subnet) then Success(None)
          else
            var parts := Split(ipStr, '.');
            if |parts| != 4 then Failure(InvalidIPv4Format(ipStr))
            else Success(Some(DNSRecord(ReverseIPv4Name(parts), hostname, c.ttl, "PTR")))
        else if !p.ipv6Enabled then Success(None)
        else if !IsIPInSubnet(ipStr, p.ipv6Subnet) then Success(None)
        else Success(Some(DNSRecord(ReverseDNS6(ipStr), hostname, c.ttl, "PTR")))
  }

  // ---------------------------------------------------------------------------
  // Joins of short label lists

  lemma JoinOne(parts: seq<string>, sep: char)
    requires |parts| == 1
    ensures Join(parts, sep) == parts[0]
  {
  }

  lemma JoinTwo(parts: seq<string>, sep: char)
    requires |parts| == 2
    ensures Join(parts, sep) == parts[0] + [sep] + parts[1]
  {
    assert Join(parts[1..], sep) == parts[1];
  }

  lemma JoinThree(parts: seq<string>, sep: char)
    requires |parts| == 3
    ensures Join(parts, sep) == parts[0] + [sep] + parts[1] + [sep] + parts[2]
  {
    JoinTwo(parts[1..], sep);
  }

  lemma JoinFour(parts: seq<string>, sep: char)
    requires |parts| == 4
    ensures Join(parts, sep) == parts[0] + [sep] + parts[1] + [sep] + parts[2] + [sep] + parts[3]
  {
    JoinThree(parts[1..], sep);
  }

  // ---------------------------------------------------------------------------
  // Properties of the classifier

  /** The reverse name of a parsed address splits back into its 32 nibble labels. */
  lemma ReverseDNS6Labels(ipStr: string)
    requires ParseIP(ipStr).Some?
    ensures var labels := NibbleLabels(ParseIP(ipStr).value);
            && ReverseDNS6(ipStr) == Join(labels, '.') + IPv6NameSuffix
            && TrimSuffix(ReverseDNS6(ipStr), IPv6NameSuffix) == Join(labels, '.')
            && TrimSuffix(Join(labels, '.'), ".") == Join(labels, '.')
            && Split(Join(labels, '.'), '.') == labels
            && IPv6NameLabels(ReverseDNS6(ipStr)) == labels
  {
    var labels := NibbleLabels(ParseIP(ipStr).value);
    TrimAppendedSuffix(Join(labels, '.'), IPv6NameSuffix);
    JoinLast(labels, '.');
    TrimAbsentSuffix(Join(labels, '.'), ".");
    SplitJoin(labels, '.');
  }

  /** A nibble reverse name ends in ip6.arpa. and cannot be mistaken for an in-addr.arpa name (it has no 'n'). */
  lemma ReverseNameFamily(ipStr: string)
    requires ParseIP(ipStr).Some?
    ensures Contains(ReverseDNS6(ipStr), IPv6NameSuffix) && !Contains(ReverseDNS6(ipStr), IPv4NameSuffix)
  {
    var labels := NibbleLabels(ParseIP(ipStr).value);
    var name := ReverseDNS6(ipStr);
    ContainsSuffix(Join(labels, '.'), IPv6NameSuffix);
    JoinChars(labels, '.', 'n');
    assert 'n' !in name;
    assert IPv4NameSuffix[2] == 'n';
    NotContainsMissingChar(name, IPv4NameSuffix, 2);
  }

  /**
   * generateIPv6PTRZone succeeds exactly for IPv6 text and a supported
   * boundary, and then keeps the last size/4 nibble labels of the reverse name.
   */
  lemma IPv6ZoneShape(ipStr: string, subnetSize: int)
    ensures GenerateIPv6PTRZone(ipStr, subnetSize).Success? <==> IsIPv6Text(ipStr) && Config.SupportedIPv6Size(subnetSize)
    ensures !IsIPv6Text(ipStr) ==> GenerateIPv6PTRZone(ipStr, subnetSize) == Failure(InvalidIPv6(ipStr))
    ensures IsIPv6Text(ipStr) && !Config.SupportedIPv6Size(subnetSize) ==>
      GenerateIPv6PTRZone(ipStr, subnetSize) == Failure(UnsupportedIPv6Size(subnetSize))
    ensures GenerateIPv6PTRZone(ipStr, subnetSize).Success? ==>
      var labels := NibbleLabels(ParseIP(ipStr).value);
      GenerateIPv6PTRZone(ipStr, subnetSize).value == Join(labels[32 - subnetSize / 4..], '.') + IPv6ZoneSuffix
    ensures GenerateIPv6PTRZone(ipStr, subnetSize).Success? ==> HasSuffix(GenerateIPv6PTRZone(ipStr, subnetSize).value, IPv6ZoneSuffix)
  {
    if ParseIP(ipStr).Some? {
      ReverseDNS6Labels(ipStr);
    }
  }

  /** Section 2.5 of RFC 3596: label k of the reverse name is nibble k of the address, counting from the least significant. */
  lemma NibbleLabelsValue(ip: IP, j: nat)
    requires j < 16
    ensures HexValue(NibbleLabels(ip)[2 * j][0]) + 16 * HexValue(NibbleLabels(ip)[2 * j + 1][0]) == ip[15 - j]
  {
    var labels := NibbleLabels(ip);
    var b := ip[15 - j];
    assert (2 * j) % 2 == 0 && (2 * j) / 2 == j && (2 * j + 1) % 2 == 1 && (2 * j + 1) / 2 == j;
    assert labels[2 * j] == [HexChar(b % 16)] && labels[2 * j + 1] == [HexChar(b / 16)];
    HexValueOfHexChar(b % 16);
    HexValueOfHexChar(b / 16);
  }

  /** The reverse name CreatePTRRecord writes for a dotted quad is its four octets in reverse order under in-addr.arpa. */
  lemma DottedQuadReverseName(ipStr: string)
    requires ParseDottedQuad(ipStr).Some?
    ensures IsIPv4Text(ipStr) && |Split(ipStr, '.')| == 4
    ensures To4(ParseIP(ipStr).value) == ParseDottedQuad(ipStr)
    ensures var labels := ReversedDecimals(ParseDottedQuad(ipStr).value);
            && ReverseIPv4Name(Split(ipStr, '.')) == Join(labels, '.') + IPv4NameSuffix
            && IPv4NameLabels(ReverseIPv4Name(Split(ipStr, '.'))) == labels
  {
    var b := ParseDottedQuad(ipStr).value;
    DottedQuadChars(ipStr, ':');
    DottedQuadFields(ipStr);
    var labels := ReversedDecimals(b);
    JoinFour(labels, '.');
    TrimAppendedSuffix(Join(labels, '.'), IPv4NameSuffix);
    JoinLast(labels, '.');
    TrimAbsentSuffix(Join(labels, '.'), ".");
    SplitJoin(labels, '.');
  }

  /** The last k reversed renderings are the reversed renderings of the first k octets. */
  lemma ReversedDecimalsPrefix(octets: seq<byte>, k: nat)
    requires k <= |octets|
    ensures ReversedDecimals(octets)[|octets| - k..] == ReversedDecimals(octets[..k])
  {
  }

  /** A dotted quad holds only digits and dots. */
  lemma DottedQuadChars(s: string, c: char)
    requires ParseDottedQuad(s).Some? && !IsDigit(c) && c != '.'
    ensures c !in s
  {
    var fields := Split(s, '.');
    forall k | 0 <= k < |fields|
      ensures c !in fields[k]
    {
      assert ValidOctet(fields[k]);
    }
    JoinSplit(s, '.');
    JoinChars(fields, '.', c);
  }

  /**
   * Round trip for IPv4: the zone extracted from the reverse name
   * CreatePTRRecord writes for a dotted quad is the zone generated from the
   * address itself.
   */
  lemma IPv4ZoneRoundTrip(c: Client, ipStr: string)
    requires PtrEnabled(c) && Config.SupportedIPv4Size(c.ptrConfig.value.ipv4SubnetSize)
    requires ParseDottedQuad(ipStr).Some?
    ensures GenerateIPv4PTRZone(ipStr, c.ptrConfig.value.ipv4SubnetSize).Success?
    ensures ExtractIPv4Zone(c, ReverseIPv4Name(Split(ipStr, '.')))
            == GenerateIPv4PTRZone(ipStr, c.ptrConfig.value.ipv4SubnetSize).value
  {
    DottedQuadReverseName(ipStr);
    var b := ParseDottedQuad(ipStr).value;
    var labels := ReversedDecimals(b);
    var size := c.ptrConfig.value.ipv4SubnetSize;
    var k := size / 8;
    var name := ReverseIPv4Name(Split(ipStr, '.'));
    assert IPv4NameLabels(name) == labels;
    ReversedDecimalsPrefix(b, k);
    var generated := GenerateIPv4PTRZone(ipStr, size);
    assert generated.value == Join(ReversedDecimals(b[..k]), '.') + IPv4ZoneSuffix;
    assert ExtractIPv4Zone(c, name) != "";
  }

  /**
   * Round trip for IPv6: the zone extracted from the nibble reverse name of
   * an IPv6 address is the zone generated from the address itself.
   */
  lemma IPv6ZoneRoundTrip(c: Client, ipStr: string)
    requires PtrEnabled(c) && c.ptrConfig.value.ipv6Enabled
    requires Config.SupportedIPv6Size(c.ptrConfig.value.ipv6SubnetSize)
    requires IsIPv6Text(ipStr)
    ensures GenerateIPv6PTRZone(ipStr, c.ptrConfig.value.ipv6SubnetSize).Success?
    ensures ExtractIPv6Zone(c, ReverseDNS6(ipStr)) == GenerateIPv6PTRZone(ipStr, c.ptrConfig.value.ipv6SubnetSize).value
  {
    ReverseDNS6Labels(ipStr);
    IPv6ZoneShape(ipStr, c.ptrConfig.value.ipv6SubnetSize);
  }

  /**
   * A dotted quad never hits the format error of CreatePTRRecord: it gets the
   * reverse name of its octets when it lies in the IPv4 subnet, no record otherwise.
   */
  lemma DottedQuadPtrRecord(c: Client, ipStr: string, hostname: string)
    requires PtrEnabled(c) && ParseDottedQuad(ipStr).Some?
    ensures var r := CreatePTRRecord(c, ipStr, hostname);
            && r.Success?
            && (r.value.Some? <==> IsIPInSubnet(ipStr, c.ptrConfig.value.ipv4Subnet))
            && (r.value.Some? ==> r.value.value == DNSRecord(
                  Join(ReversedDecimals(ParseDottedQuad(ipStr).value), '.') + IPv4NameSuffix, hostname, c.ttl, "PTR"))
  {
    DottedQuadReverseName(ipStr);
  }

  /** An IPv6 address is never inside a subnet written as a dotted quad. */
  lemma SubnetFamiliesSeparate(ipStr: string, subnetStr: string)
    requires IsIPv6Text(ipStr) && ':' !in subnetStr
    ensures !IsIPInSubnet(ipStr, subnetStr)
  {
  }

  /** A dotted quad followed by "/" and a prefix length of at most 32 parses as the masked IPv4 network. */
  lemma DottedQuadCIDR(addr: string, prefix: string)
    requires ParseDottedQuad(addr).Some?
    requires |prefix| >= 1 && AllDigits(prefix) && DigitsValue(prefix) <= 32
    ensures var b := ParseDottedQuad(addr).value;
            var mask := CIDRMask(DigitsValue(prefix), 32);
            ParseCIDR(addr + "/" + prefix) == Some(IPNet(ApplyMask(b, mask), mask))
  {
    var s := addr + "/" + prefix;
    DottedQuadChars(addr, '/');
    DottedQuadChars(addr, ':');
    IndexOfFirst(s, '/', |addr|, 0);
    assert s[..|addr|] == addr && s[|addr| + 1..] == prefix;
    assert ParseIP(addr).value[12..] == ParseDottedQuad(addr).value;
  }

  /**
   * The IPv4 network made by masking an address holds every address that
   * agrees with it under the mask, the address itself among them.
   */
  lemma MaskedNetworkContains(b: seq<byte>, mask: seq<nat>, c: seq<byte>)
    requires |b| == 4 && |mask| == 4 && |c| == 4
    requires ApplyMask(c, mask) == ApplyMask(b, mask)
    ensures NetContains(IPNet(ApplyMask(b, mask), mask), V4Mapped(c))
  {
    var network := IPNet(ApplyMask(b, mask), mask);
    assert To4(V4Mapped(c)).Some?;
    forall i | 0 <= i < 4
      ensures MaskByte(network.ip[i], mask[i]) == MaskByte(c[i], mask[i])
    {
      MaskByteIdempotent(b[i], mask[i]);
      assert ApplyMask(c, mask)[i] == ApplyMask(b, mask)[i];
    }
  }

  /** A dotted quad is inside the subnet its own address and any IPv4 prefix length make. */
  lemma DottedQuadInOwnSubnet(addr: string, prefix: string)
    requires ParseDottedQuad(addr).Some?
    requires |prefix| >= 1 && AllDigits(prefix) && DigitsValue(prefix) <= 32
    ensures IsIPInSubnet(addr, addr + "/" + prefix)
  {
    var b := ParseDottedQuad(addr).value;
    var mask := CIDRMask(DigitsValue(prefix), 32);
    DottedQuadChars(addr, ':');
    assert ParseIP(addr) == Some(V4Mapped(b));
    DottedQuadCIDR(addr, prefix);
    MaskedNetworkContains(b, mask, b);
  }

  /** A configuration that validates yields a client: NewClient cannot fail on it. */
  lemma ValidatedConfigBuildsClient(cfg: Config.Config)
    requires Config.Validate(cfg).Pass?
    ensures NewClient(cfg.bind.server, cfg.bind.port, cfg.bind.zone, cfg.bind.keyName, cfg.bind.keySecret,
                      cfg.bind.algorithm, cfg.bind.ttl, Some(cfg.bind.ptr)).Success?
  {
  }

  /**
   * Once the configuration validates, the unsupported-size outcomes of the
   * classifier cannot happen: generation fails only for an address of the
   * wrong family, extraction yields "" only for a name of the wrong shape.
   */
  lemma ValidatedClassifierTotal(cfg: Config.Config, c: Client)
    requires Config.Validate(cfg).Pass? && cfg.bind.ptr.enabled && c.ptrConfig == Some(cfg.bind.ptr)
    ensures forall s :: GenerateIPv4PTRZone(s, cfg.bind.ptr.ipv4SubnetSize).Success? <==> IsIPv4Text(s)
    ensures forall n :: ExtractIPv4Zone(c, n) == "" <==> |IPv4NameLabels(n)| != 4
    ensures cfg.bind.ptr.ipv6Enabled ==>
      forall s :: GenerateIPv6PTRZone(s, cfg.bind.ptr.ipv6SubnetSize).Success? <==> IsIPv6Text(s)
    ensures cfg.bind.ptr.ipv6Enabled ==>
      forall n :: ExtractIPv6Zone(c, n) == "" <==> |IPv6NameLabels(n)| < NibblesToUse(cfg.bind.ptr.ipv6SubnetSize)
  {
    if cfg.bind.ptr.ipv6Enabled {
      forall s
        ensures GenerateIPv6PTRZone(s, cfg.bind.ptr.ipv6SubnetSize).Success? <==> IsIPv6Text(s)
      {
        IPv6ZoneShape(s, cfg.bind.ptr.ipv6SubnetSize);
      }
    }
  }
}
