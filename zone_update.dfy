/**
 * The RFC 2136 dynamic update path of the Bind client: routing each desired
 * record to a zone, building one TSIG-signed update message per zone (a
 * removal of the RRset followed by an insertion for every record) and
 * sending the zones one after another until the first failure.
 */
module ZoneUpdate {
  import opened Wrappers
  import opened Text
  import opened Net
  import opened Bind

  // ---------------------------------------------------------------------------
  // Fully-qualified names

  /** The number of backslashes `s` ends with. */
  function TrailingBackslashes(s: string): nat
  {
    if |s| > 0 && s[|s| - 1] == '\\' then 1 + TrailingBackslashes(s[..|s| - 1]) else 0
  }

  /** dns.IsFqdn: the name ends with a dot that is not escaped by an odd run of backslashes. */
  predicate IsFqdn(s: string)
  {
    |s| >= 1 && s[|s| - 1] == '.' && TrailingBackslashes(s[..|s| - 1]) % 2 == 0
  }

  /** dns.Fqdn: the name itself when already fully qualified, otherwise the name with a dot appended. */
  function Fqdn(s: string): (r: string)
    ensures r == s || r == s + "."
    ensures |r| >= 1 && r[|r| - 1] == '.'
  {
    if IsFqdn(s) then s else s + "."
  }

  /** For a name without backslashes Fqdn is the usual trailing-dot rule, and it is idempotent. */
  lemma FqdnPlainName(s: string)
    requires '\\' !in s
    ensures Fqdn(s) == if |s| >= 1 && s[|s| - 1] == '.' then s else s + "."
    ensures IsFqdn(Fqdn(s)) && Fqdn(Fqdn(s)) == Fqdn(s)
  {
    if |s| >= 1 {
      assert s[|s| - 1] in s;
      if s[|s| - 1] == '.' && |s| >= 2 {
        assert s[|s| - 2] in s;
      }
    }
  }

  // ---------------------------------------------------------------------------
  // Update messages

  datatype RRType = A | AAAA | PTR

  /** Record data: an address (None stands for the nil net.ParseIP gives for bad text) or a PTR target. */
  datatype RData = Address(ip: Option<IP>) | Pointer(target: string)

  /** A resource record of class IN. */
  datatype RR = RR(owner: string, rrtype: RRType, ttl: nat, data: RData)

  /** The update-section entries of section 2.5 of RFC 2136 that the client uses. */
  datatype UpdateOp = RemoveRRset(owner: string, rrtype: RRType) | Insert(rr: RR)

  /** The transaction signature the message carries (section 4 of RFC 8945), without its signing time. */
  datatype Tsig = Tsig(keyName: string, algorithm: string, secret: string, fudge: nat)

  /** An UPDATE message for `zone`: its zone section, update section and signature. */
  datatype UpdateMsg = UpdateMsg(zone: string, ops: seq<UpdateOp>, tsig: Tsig)

  /** The seconds of clock skew the signature tolerates. */
  const TsigFudge: nat := 300

  /** The owner name the client writes for a record in `zone`: PTR names are absolute, others relative to the zone. */
  function Owner(zone: string, rec: DNSRecord): string
  {
    if rec.rtype == "PTR" then Fqdn(rec.name) else Fqdn(rec.name + "." + zone)
  }

  /** The RR type written for a record: anything that is neither PTR nor AAAA is sent as A. */
  function TypeOf(rec: DNSRecord): RRType
  {
    if rec.rtype == "PTR" then PTR else if rec.rtype == "AAAA" then AAAA else A
  }

  function DataOf(rec: DNSRecord): RData
  {
    if rec.rtype == "PTR" then Pointer(Fqdn(rec.value)) else Address(ParseIP(rec.value))
  }

  /** `s` followed by a dot unless it already ends with one. */
  function WithDot(s: string): string
  {
    if |s| >= 1 && s[|s| - 1] == '.' then s else s + "."
  }

  /**
   * For names without backslashes, an A/AAAA record is written at
   * name.zone. and a PTR record at name. pointing at value.
   */
  lemma OwnerOfPlainRecord(zone: string, rec: DNSRecord)
    requires '\\' !in rec.name && '\\' !in rec.value && '\\' !in zone && zone != ""
    ensures rec.rtype == "PTR" ==> Owner(zone, rec) == WithDot(rec.name) && DataOf(rec) == Pointer(WithDot(rec.value))
    ensures rec.rtype != "PTR" ==> Owner(zone, rec) == rec.name + "." + WithDot(zone)
  {
    if rec.rtype == "PTR" {
      FqdnPlainName(rec.name);
      FqdnPlainName(rec.value);
    } else {
      var full := rec.name + "." + zone;
      assert '\\' !in full;
      FqdnPlainName(full);
      assert full[|full| - 1] == zone[|zone| - 1];
    }
  }

  /** The two update entries for one record: drop the owner's RRset of that type, then add the record. */
  function RecordOps(zone: string, rec: DNSRecord): seq<UpdateOp>
  {
    [RemoveRRset(Owner(zone, rec), TypeOf(rec)), Insert(RR(Owner(zone, rec), TypeOf(rec), rec.ttl, DataOf(rec)))]
  }

  /** The update section for `records` in `zone`, built back to front. */
  function UpdateOps(zone: string, records: seq<DNSRecord>): (ops: seq<UpdateOp>)
    ensures |ops| == 2 * |records|
  {
    if |records| == 0 then []
    else
      UpdateOps(zone, records[..|records| - 1]) + RecordOps(zone, records[|records| - 1])
  }

  /** Entry 2k of the update section deletes record k's RRset and entry 2k+1 inserts record k. */
  lemma {:induction false} UpdateOpsAt(zone: string, records: seq<DNSRecord>, k: nat)
    requires k < |records|
    ensures UpdateOps(zone, records)[2 * k] == RemoveRRset(Owner(zone, records[k]), TypeOf(records[k]))
    ensures UpdateOps(zone, records)[2 * k + 1] == Insert(RR(Owner(zone, records[k]), TypeOf(records[k]), records[k].ttl, DataOf(records[k])))
  {
    var init := records[..|records| - 1];
    if k < |records| - 1 {
      UpdateOpsAt(zone, init, k);
      assert init[k] == records[k];
    }
  }

  lemma UpdateOpsStep(zone: string, records: seq<DNSRecord>, i: nat)
    requires i < |records|
    ensures UpdateOps(zone, records[..i + 1]) == UpdateOps(zone, records[..i]) + RecordOps(zone, records[i])
  {
    assert records[..i + 1][..i] == records[..i];
  }

  /** The signed message sendZoneUpdate builds for one zone. */
  function BuildUpdate(c: Client, zone: string, records: seq<DNSRecord>, key: TsigKey): UpdateMsg
  {
    UpdateMsg(Fqdn(zone), UpdateOps(zone, records), Tsig(key.name, key.algorithm, c.keySecret, TsigFudge))
  }

  /** What the server exchange gives back: a transport failure or a response code. */
  datatype Reply = TransportError | Response(rcode: int)

  /** The exchange with the server at (host, port); it stands in for the network. */
  type Exchange = (string, int, UpdateMsg) -> Reply

  datatype SendError = SendFailed | Rejected(rcode: int)

  /** The outcome sendZoneUpdate reports for a reply: only NOERROR (rcode 0) is success. */
  function ReplyError(reply: Reply): (e: Option<SendError>)
    ensures e.None? <==> reply == Response(0)
  {
    match reply
    case TransportError => Some(SendFailed)
    case Response(rcode) => if rcode == 0 then None else Some(Rejected(rcode))
  }

  /** sendZoneUpdate: builds the update record by record, signs it and sends it once to the configured server. */
  method SendZoneUpdate(c: Client, zone: string, records: seq<DNSRecord>, key: TsigKey, exchange: Exchange)
    returns (msg: UpdateMsg, err: Option<SendError>)
    ensures msg == BuildUpdate(c, zone, records, key)
    ensures err == ReplyError(exchange(c.server, c.port, msg))
  {
    var ops: seq<UpdateOp> := [];
    var i := 0;
    while i < |records|
      invariant 0 <= i <= |records|
      invariant ops == UpdateOps(zone, records[..i])
    {
      var rec := records[i];
      var remove: UpdateOp, insert: UpdateOp;
      if rec.rtype == "PTR" {
        remove := RemoveRRset(Fqdn(rec.name), PTR);
        insert := Insert(RR(Fqdn(rec.name), PTR, rec.ttl, Pointer(Fqdn(rec.value))));
      } else {
        var owner := Fqdn(rec.name + "." + zone);
        var rrtype := if rec.rtype == "AAAA" then AAAA else A;
        remove := RemoveRRset(owner, rrtype);
        insert := Insert(RR(owner, rrtype, rec.ttl, Address(ParseIP(rec.value))));
      }
      assert [remove, insert] == RecordOps(zone, rec);
      UpdateOpsStep(zone, records, i);
      ops := ops + [remove, insert];
      i := i + 1;
    }
    assert records[..|records|] == records;
    msg := UpdateMsg(Fqdn(zone), ops, Tsig(key.name, key.algorithm, c.keySecret, TsigFudge));
    var reply := exchange(c.server, c.port, msg);
    match reply {
      case TransportError =>
        err := Some(SendFailed);
      case Response(rcode) =>
        err := if rcode == 0 then None else Some(Rejected(rcode));
    }
  }

  // ---------------------------------------------------------------------------
  // Routing records to zones

  /**
   * The zone UpdateRecords files a record under: the forward zone for A and
   * AAAA records, the reverse zone read off the owner name for PTR records,
   * and "" (the record is dropped) when no zone can be read off.
   */
  function ZoneOf(c: Client, rec: DNSRecord): string
  {
    if rec.rtype == "PTR" then
      if Contains(rec.name, IPv4NameSuffix) then ExtractIPv4Zone(c, rec.name)
      else if Contains(rec.name, IPv6NameSuffix) then ExtractIPv6Zone(c, rec.name)
      else ""
    else c.zone
  }

  /** With reverse records off every A/AAAA record goes to the forward zone and every PTR record is dropped. */
  lemma RoutingWithoutPtr(c: Client, records: seq<DNSRecord>)
    requires !PtrEnabled(c)
    ensures forall r :: ZoneOf(c, r) == if r.rtype == "PTR" then "" else c.zone
    ensures Grouping(c, records).Keys <= {c.zone}
  {
    GroupingPartitions(r => ZoneOf(c, r), records);
  }

  /**
   * The PTR record CreatePTRRecord makes for a dotted quad inside the IPv4
   * subnet is filed under the zone getPTRZoneForIP names for that address.
   */
  lemma IPv4PtrRecordRouting(c: Client, ipStr: string, hostname: string)
    requires PtrEnabled(c) && Config.SupportedIPv4Size(c.ptrConfig.value.ipv4SubnetSize)
    requires ParseDottedQuad(ipStr).Some? && IsIPInSubnet(ipStr, c.ptrConfig.value.ipv4Subnet)
    ensures var r := CreatePTRRecord(c, ipStr, hostname);
            && r.Success? && r.value.Some?
            && GetPTRZoneForIP(c, ipStr, false).Success?
            && ZoneOf(c, r.value.value) == GetPTRZoneForIP(c, ipStr, false).value
  {
    DottedQuadPtrRecord(c, ipStr, hostname);
    DottedQuadReverseName(ipStr);
    IPv4ZoneRoundTrip(c, ipStr);
    var labels := ReversedDecimals(ParseDottedQuad(ipStr).value);
    ContainsSuffix(Join(labels, '.'), IPv4NameSuffix);
  }

  /**
   * The PTR record CreatePTRRecord makes for an IPv6 address inside the IPv6
   * subnet is filed under the zone getPTRZoneForIP names for that address.
   */
  lemma IPv6PtrRecordRouting(c: Client, ipStr: string, hostname: string)
    requires PtrEnabled(c) && c.ptrConfig.value.ipv6Enabled
    requires Config.SupportedIPv6Size(c.ptrConfig.value.ipv6SubnetSize)
    requires IsIPv6Text(ipStr) && IsIPInSubnet(ipStr, c.ptrConfig.value.ipv6Subnet)
    ensures var r := CreatePTRRecord(c, ipStr, hostname);
            && r.Success? && r.value.Some?
            && GetPTRZoneForIP(c, ipStr, true).Success?
            && ZoneOf(c, r.value.value) == GetPTRZoneForIP(c, ipStr, true).value
  {
    var name := ReverseDNS6(ipStr);
    ReverseNameFamily(ipStr);
    IPv6ZoneRoundTrip(c, ipStr);
    var rec := DNSRecord(name, hostname, c.ttl, "PTR");
    assert CreatePTRRecord(c, ipStr, hostname) == Success(Some(rec));
    assert ZoneOf(c, rec) == ExtractIPv6Zone(c, name);
    assert GetPTRZoneForIP(c, ipStr, true) == GenerateIPv6PTRZone(ipStr, c.ptrConfig.value.ipv6SubnetSize);
  }

  /** The records of `records` that `route` files under `zone`, in their original order. */
  function RecordsIn(route: DNSRecord -> string, records: seq<DNSRecord>, zone: string): (group: seq<DNSRecord>)
    ensures forall r :: r in group ==> r in records && route(r) == zone
    ensures forall r :: r in records && route(r) == zone ==> r in group
  {
    if |records| == 0 then []
    else
      var last := records[|records| - 1];
      assert records == records[..|records| - 1] + [last];
      RecordsIn(route, records[..|records| - 1], zone) + (if route(last) == zone then [last] else [])
  }

  /** The zones `route` files some record under. */
  function Zones(route: DNSRecord -> string, records: seq<DNSRecord>): set<string>
  {
    set r | r in records && route(r) != "" :: route(r)
  }

  /** The records grouped by the zone `route` files them under; records routed to "" are dropped. */
  function GroupBy(route: DNSRecord -> string, records: seq<DNSRecord>): map<string, seq<DNSRecord>>
  {
    map z | z in Zones(route, records) :: RecordsIn(route, records, z)
  }

  /** The recordsByZone map UpdateRecords builds. */
  function Grouping(c: Client, records: seq<DNSRecord>): map<string, seq<DNSRecord>>
  {
    GroupBy(r => ZoneOf(c, r), records)
  }

  /** The grouping partitions the routable records: each lands in the group of its own zone and nowhere else. */
  lemma GroupingPartitions(route: DNSRecord -> string, records: seq<DNSRecord>)
    ensures "" !in GroupBy(route, records)
    ensures forall z, r :: z in GroupBy(route, records) && r in GroupBy(route, records)[z] ==> r in records && route(r) == z
    ensures forall r :: r in records && route(r) != "" ==>
      route(r) in GroupBy(route, records) && r in GroupBy(route, records)[route(r)]
    ensures forall z :: z in GroupBy(route, records) ==> |GroupBy(route, records)[z]| > 0
  {
    var g := GroupBy(route, records);
    forall z | z in g
      ensures |g[z]| > 0
    {
      var r :| r in records && route(r) != "" && route(r) == z;
      assert r in g[z];
    }
  }

  lemma RecordsInSnoc(route: DNSRecord -> string, records: seq<DNSRecord>, rec: DNSRecord, zone: string)
    ensures RecordsIn(route, records + [rec], zone) == RecordsIn(route, records, zone) + (if route(rec) == zone then [rec] else [])
  {
    assert (records + [rec])[..|records|] == records;
  }

  lemma ZonesSnoc(route: DNSRecord -> string, records: seq<DNSRecord>, rec: DNSRecord)
    ensures Zones(route, records + [rec]) == if route(rec) == "" then Zones(route, records) else Zones(route, records) + {route(rec)}
  {
    var all := records + [rec];
    assert forall r :: r in all <==> r in records || r == rec;
  }

  lemma RecordsInUnrouted(route: DNSRecord -> string, records: seq<DNSRecord>, zone: string)
    requires zone != "" && zone !in Zones(route, records)
    ensures RecordsIn(route, records, zone) == []
  {
  }

  /** The zones after filing one more record: the zone of that record joins them unless it is "". */
  lemma GroupingStepKeys(route: DNSRecord -> string, records: seq<DNSRecord>, rec: DNSRecord)
    ensures var g := GroupBy(route, records);
            GroupBy(route, records + [rec]).Keys == if route(rec) == "" then g.Keys else g.Keys + {route(rec)}
  {
    ZonesSnoc(route, records, rec);
  }

  /** The group of one zone after filing one more record. */
  lemma GroupingStepAt(route: DNSRecord -> string, records: seq<DNSRecord>, rec: DNSRecord, y: string)
    requires y in GroupBy(route, records + [rec])
    ensures var g := GroupBy(route, records);
            var group := if y in g then g[y] else [];
            GroupBy(route, records + [rec])[y] == if y == route(rec) then group + [rec] else group
  {
    RecordsInSnoc(route, records, rec, y);
    if y !in Zones(route, records) {
      RecordsInUnrouted(route, records, y);
    }
  }

  /** A record routed to "" leaves the grouping as it was. */
  lemma GroupingStepUnrouted(route: DNSRecord -> string, records: seq<DNSRecord>, rec: DNSRecord)
    requires route(rec) == ""
    ensures GroupBy(route, records + [rec]) == GroupBy(route, records)
  {
    var g := GroupBy(route, records);
    var g2 := GroupBy(route, records + [rec]);
    GroupingStepKeys(route, records, rec);
    forall y | y in g2
      ensures g2[y] == g[y]
    {
      GroupingStepAt(route, records, rec, y);
    }
  }

  /** Each group after filing a routed record: the record's own group gains it, the others stay. */
  lemma GroupingStepRoutedGroups(route: DNSRecord -> string, records: seq<DNSRecord>, rec: DNSRecord)
    requires route(rec) != ""
    ensures var g := GroupBy(route, records);
            var z := route(rec);
            var g2 := GroupBy(route, records + [rec]);
            forall y :: y in g2 ==> g2[y] == g[z := (if z in g then g[z] else []) + [rec]][y]
  {
    forall y | y in GroupBy(route, records + [rec])
      ensures var g := GroupBy(route, records);
              var z := route(rec);
              GroupBy(route, records + [rec])[y] == g[z := (if z in g then g[z] else []) + [rec]][y]
    {
      GroupingStepAt(route, records, rec, y);
    }
  }

  /** A routed record is appended to the group of its zone, which is created if need be. */
  lemma GroupingStepRouted(route: DNSRecord -> string, records: seq<DNSRecord>, rec: DNSRecord)
    requires route(rec) != ""
    ensures var g := GroupBy(route, records);
            var z := route(rec);
            GroupBy(route, records + [rec]) == g[z := (if z in g then g[z] else []) + [rec]]
  {
    GroupingStepKeys(route, records, rec);
    GroupingStepRoutedGroups(route, records, rec);
  }

  /** Filing one more record appends it to the group of its zone and leaves the other groups alone. */
  lemma GroupingStep(route: DNSRecord -> string, records: seq<DNSRecord>, rec: DNSRecord)
    ensures var g := GroupBy(route, records);
            var z := route(rec);
            GroupBy(route, records + [rec]) == if z == "" then g else g[z := (if z in g then g[z] else []) + [rec]]
  {
    if route(rec) == "" {
      GroupingStepUnrouted(route, records, rec);
    } else {
      GroupingStepRouted(route, records, rec);
    }
  }

  /** One step of the grouping loop, stated for the client's own routing. */
  lemma GroupingByZoneStep(c: Client, records: seq<DNSRecord>, i: nat)
    requires i < |records|
    ensures var g := Grouping(c, records[..i]);
            var z := ZoneOf(c, records[i]);
            Grouping(c, records[..i + 1]) == if z == "" then g else g[z := (if z in g then g[z] else []) + [records[i]]]
  {
    var route := r => ZoneOf(c, r);
    assert records[..i + 1] == records[..i] + [records[i]];
    GroupingStep(route, records[..i], records[i]);
  }

  /** The grouping loop of UpdateRecords. */
  method GroupByZone(c: Client, records: seq<DNSRecord>) returns (byZone: map<string, seq<DNSRecord>>)
    ensures byZone == Grouping(c, records)
  {
    byZone := map[];
    var i := 0;
    while i < |records|
      invariant 0 <= i <= |records|
      invariant byZone == Grouping(c, records[..i])
    {
      var rec := records[i];
      GroupingByZoneStep(c, records, i);
      var zone := ZoneOf(c, rec);
      if zone != "" {
        var current := if zone in byZone then byZone[zone] else [];
        byZone := byZone[zone := current + [rec]];
      }
      i := i + 1;
    }
    assert records[..|records|] == records;
  }

  // ---------------------------------------------------------------------------
  // Sending

  /** One zone's update as sent: the zone, the message and the reply it drew. */
  datatype Dispatch = Dispatch(zone: string, msg: UpdateMsg, reply: Reply)

  datatype UpdateError = KeyFailed(keyError: TsigError) | ZoneFailed(zone: string, sendError: SendError)

  /** Every dispatch sends the update for one group of `byZone`, each zone at most once. */
  predicate SentFrom(c: Client, byZone: map<string, seq<DNSRecord>>, key: TsigKey, exchange: Exchange, sent: seq<Dispatch>)
  {
    && (forall k :: 0 <= k < |sent| ==>
          && sent[k].zone in byZone
          && sent[k].msg == BuildUpdate(c, sent[k].zone, byZone[sent[k].zone], key)
          && sent[k].reply == exchange(c.server, c.port, sent[k].msg))
    && (forall j, k :: 0 <= j < k < |sent| ==> sent[j].zone != sent[k].zone)
  }

  /** The zones the dispatches went to. */
  function ZonesSent(sent: seq<Dispatch>): (zones: set<string>)
    ensures forall k :: 0 <= k < |sent| ==> sent[k].zone in zones
  {
    if |sent| == 0 then {} else ZonesSent(sent[..|sent| - 1]) + {sent[|sent| - 1].zone}
  }

  lemma SentFromStep(
    c: Client, byZone: map<string, seq<DNSRecord>>, key: TsigKey, exchange: Exchange,
    sent: seq<Dispatch>, zone: string, msg: UpdateMsg)
    requires SentFrom(c, byZone, key, exchange, sent)
    requires zone in byZone && zone !in ZonesSent(sent) && msg == BuildUpdate(c, zone, byZone[zone], key)
    ensures var next := sent + [Dispatch(zone, msg, exchange(c.server, c.port, msg))];
            SentFrom(c, byZone, key, exchange, next) && ZonesSent(next) == ZonesSent(sent) + {zone}
  {
    var next := sent + [Dispatch(zone, msg, exchange(c.server, c.port, msg))];
    assert next[..|sent|] == sent;
    forall j, k | 0 <= j < k < |next|
      ensures next[j].zone != next[k].zone
    {
      assert next[j] == sent[j];
      if k == |sent| {
        assert sent[j].zone in ZonesSent(sent);
      } else {
        assert next[k] == sent[k];
      }
    }
  }

  /** The state of the zone loop: every dispatch so far was accepted, and `pending` holds the zones not yet sent. */
  predicate AllAccepted(
    c: Client, byZone: map<string, seq<DNSRecord>>, key: TsigKey, exchange: Exchange,
    sent: seq<Dispatch>, pending: set<string>)
  {
    && pending <= byZone.Keys
    && SentFrom(c, byZone, key, exchange, sent)
    && (forall k :: 0 <= k < |sent| ==> sent[k].reply == Response(0))
    && ZonesSent(sent) == byZone.Keys - pending
  }

  /** An accepted send keeps the loop state with one zone fewer pending. */
  lemma SendAccepted(
    c: Client, byZone: map<string, seq<DNSRecord>>, key: TsigKey, exchange: Exchange,
    sent: seq<Dispatch>, pending: set<string>, zone: string, msg: UpdateMsg)
    requires AllAccepted(c, byZone, key, exchange, sent, pending)
    requires zone in pending && msg == BuildUpdate(c, zone, byZone[zone], key)
    requires exchange(c.server, c.port, msg) == Response(0)
    ensures AllAccepted(c, byZone, key, exchange, sent + [Dispatch(zone, msg, exchange(c.server, c.port, msg))], pending - {zone})
  {
    SentFromStep(c, byZone, key, exchange, sent, zone, msg);
  }

  /** A rejected send ends the loop with the rejecting zone's dispatch last. */
  lemma SendRejected(
    c: Client, byZone: map<string, seq<DNSRecord>>, key: TsigKey, exchange: Exchange,
    sent: seq<Dispatch>, pending: set<string>, zone: string, msg: UpdateMsg)
    requires AllAccepted(c, byZone, key, exchange, sent, pending)
    requires zone in pending && msg == BuildUpdate(c, zone, byZone[zone], key)
    requires exchange(c.server, c.port, msg) != Response(0)
    ensures var next := sent + [Dispatch(zone, msg, exchange(c.server, c.port, msg))];
            && SentFrom(c, byZone, key, exchange, next)
            && (forall k :: 0 <= k < |next| - 1 ==> next[k].reply == Response(0))
            && !(forall k :: 0 <= k < |next| ==> next[k].reply == Response(0))
            && next[|next| - 1] == Dispatch(zone, msg, exchange(c.server, c.port, msg))
  {
    SentFromStep(c, byZone, key, exchange, sent, zone, msg);
  }

  /** With no zone pending, every zone was sent and accepted. */
  lemma AllSent(c: Client, byZone: map<string, seq<DNSRecord>>, key: TsigKey, exchange: Exchange, sent: seq<Dispatch>)
    requires AllAccepted(c, byZone, key, exchange, sent, {})
    ensures SentFrom(c, byZone, key, exchange, sent)
    ensures forall k :: 0 <= k < |sent| ==> sent[k].reply == Response(0)
    ensures ZonesSent(sent) == byZone.Keys
  {
  }

  /**
   * The zone loop of UpdateRecords: sends the group of each zone once, in an
   * order the model leaves open (Go map iteration), until a send fails.
   */
  method SendZones(c: Client, byZone: map<string, seq<DNSRecord>>, key: TsigKey, exchange: Exchange)
    returns (err: Option<UpdateError>, sent: seq<Dispatch>)
    ensures SentFrom(c, byZone, key, exchange, sent)
    ensures forall k :: 0 <= k < |sent| - 1 ==> sent[k].reply == Response(0)
    ensures err.None? <==> (forall k :: 0 <= k < |sent| ==> sent[k].reply == Response(0)) && ZonesSent(sent) == byZone.Keys
    ensures err.Some? ==>
      && |sent| > 0 && sent[|sent| - 1].reply != Response(0)
      && err == Some(ZoneFailed(sent[|sent| - 1].zone, ReplyError(sent[|sent| - 1].reply).value))
  {
    sent := [];
    var pending := byZone.Keys;
    while pending != {}
      invariant AllAccepted(c, byZone, key, exchange, sent, pending)
      decreases |pending|
    {
      var zone :| zone in pending;
      var msg, e := SendZoneUpdate(c, zone, byZone[zone], key, exchange);
      if e.Some? {
        SendRejected(c, byZone, key, exchange, sent, pending, zone, msg);
        sent := sent + [Dispatch(zone, msg, exchange(c.server, c.port, msg))];
        return Some(ZoneFailed(zone, e.value)), sent;
      }
      SendAccepted(c, byZone, key, exchange, sent, pending, zone, msg);
      sent := sent + [Dispatch(zone, msg, exchange(c.server, c.port, msg))];
      pending := pending - {zone};
    }
    AllSent(c, byZone, key, exchange, sent);
    err := None;
  }

  /**
   * UpdateRecords: nothing is sent for a dry run or an empty list; otherwise
   * the records are grouped by zone, the TSIG key is made, and one signed
   * update per zone is sent, stopping at the first failure.
   */
  method UpdateRecords(c: Client, records: seq<DNSRecord>, dryRun: bool, exchange: Exchange)
    returns (err: Option<UpdateError>, sent: seq<Dispatch>)
    ensures dryRun || |records| == 0 ==> err.None? && sent == []
    ensures !dryRun && |records| > 0 && CreateTSIGKey(c).Failure? ==>
      err == Some(KeyFailed(CreateTSIGKey(c).error)) && sent == []
    ensures !dryRun && |records| > 0 && CreateTSIGKey(c).Success? ==>
      && SentFrom(c, Grouping(c, records), CreateTSIGKey(c).value, exchange, sent)
      && (forall k :: 0 <= k < |sent| - 1 ==> sent[k].reply == Response(0))
      && (err.None? <==> (forall k :: 0 <= k < |sent| ==> sent[k].reply == Response(0))
                         && ZonesSent(sent) == Grouping(c, records).Keys)
      && (err.Some? ==>
            && |sent| > 0 && sent[|sent| - 1].reply != Response(0)
            && err == Some(ZoneFailed(sent[|sent| - 1].zone, ReplyError(sent[|sent| - 1].reply).value)))
  {
    if dryRun {
      return None, [];
    }
    if |records| == 0 {
      return None, [];
    }
    var byZone := GroupByZone(c, records);
    var keyResult := CreateTSIGKey(c);
    if keyResult.Failure? {
      return Some(KeyFailed(keyResult.error)), [];
    }
    err, sent := SendZones(c, byZone, keyResult.value, exchange);
  }
}
