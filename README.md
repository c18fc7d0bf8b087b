# tailscale-bind-ddns: record synthesis and reverse-zone routing in Dafny

This project models the core of tailscale-bind-ddns, a service that keeps a BIND
server's DNS records in step with the machines of a Tailscale tailnet.

Each batch of machines flows through these steps:

1. Every online machine gets a record name: its display name, or its ID when the name is empty, passed through `sanitizeDNSName`.
2. The machine gets an A record for a non-empty IPv4 address and an AAAA record for a non-empty IPv6 address.
3. When PTR records are enabled, `CreatePTRRecord` is asked for a reverse record for each address. It checks the enable flags and the configured subnet, and builds the reverse owner name: `d.c.b.a.in-addr.arpa.` for IPv4, the 32-nibble `ip6.arpa.` name for IPv6.
4. The forward records and then the PTR records are handed to `UpdateRecords` as one list.
5. `UpdateRecords` files each record under a zone:
   - A/AAAA records go to the forward zone.
   - A PTR record goes to the reverse zone re-derived from its owner name by `extractIPv4ZoneFromPTRName` / `extractIPv6ZoneFromPTRName`.
   - A record whose zone comes out empty is dropped.
6. For each zone, `UpdateRecords` builds one RFC 2136 dynamic update: for each record, a delete-RRset (section 2.5.2 of RFC 2136) followed by an insert (section 2.5.1). The update is signed with a TSIG key whose algorithm is one of the HMAC names of section 6 of RFC 8945, and it stops at the first zone whose update fails, either because the exchange fails or because the server does not reply with success.

`Config.Validate` establishes the boundary sizes the reverse-zone classifier relies on: 8/16/24 for IPv4, 32/48/64 for IPv6.

Files (one module each):

| file | module | content |
|---|---|---|
| `wrappers.dfy` | `Wrappers` | `Option`, `Result`, `Outcome` for Go's nil pointers and `(value, error)` pairs |
| `text.dfy` | `Text` | `strings.Split`/`Join`/`TrimSuffix`/`Contains`; `%d` and `%x` formatting |
| `net.dfy` | `Net` | `net.ParseIP`, `IP.To4`, `net.ParseCIDR`, `IPNet.Contains`, written as a grammar over the address text |
| `config.dfy` | `Config` | the configuration records and `Validate` |
| `bind.dfy` | `Bind` | `NewClient`, `createTSIGKey`, `isIPInSubnet`, the reverse-zone classifier, `CreatePTRRecord`, `ipv6ToReverseDNS` |
| `zone_update.dfy` | `ZoneUpdate` | the update message as a list of delete/insert operations, `sendZoneUpdate`, zone grouping and `UpdateRecords` |
| `app.dfy` | `App` | `sanitizeDNSName`, `machinesToRecords`, `createPTRRecords`, one batch of `convertMachinesToRecords`, and the end-to-end routing lemma |

How the Go code is represented:

- **Client and App** are datatypes, because nothing updates them after construction.
- **The Go loops** become methods with loop invariants. This covers `ipv6ToReverseDNS`, the grouping loop and the zone loop of `UpdateRecords`, the operation loop of `sendZoneUpdate`, `machinesToRecords` and `createPTRRecords`. Each method is proved equal to a specification function, and the lemmas are stated about those functions.
- **The server exchange** is the function parameter `exchange`.
- **Go's map iteration order** over the zones is an arbitrary choice (`:|`). The properties of `UpdateRecords` therefore hold for every order.

## Model

| member | source | states |
|---|---|---|
| Config.Validate | pkg/config/config.go:202-266 | Validation passes exactly when all of these hold: there are tailnet credentials (an API key, or both client ID and secret); tailnet, server, zone, key name and key secret are set; and, if PTR is enabled, the IPv4 zone is set, any IPv4 subnet is a valid CIDR and the IPv4 size is 8/16/24; and, if IPv6 is enabled too, the IPv6 zone and subnet are set, the subnet is a valid CIDR and the size is 32/48/64 |
| Config.ValidateReportsFirstFailure | pkg/config/config.go:203-262 | A passing configuration satisfies every check. A failing one fails the reported check, and passes every check that comes earlier in the source's order |
| Bind.NewClient | pkg/bind/client.go:38-68 | Fails exactly when server, zone, key name or key secret is empty, and reports the first empty one in that order. Otherwise every field is kept as given, with the TTL in whole seconds |
| Bind.CreateTSIGKey | pkg/bind/client.go:249-271 | An empty algorithm means hmac-sha256. The key is built exactly for the five HMAC names, with the key name and the algorithm plus a trailing dot. Any other name fails as unsupported |
| Bind.IsIPInSubnet | pkg/bind/client.go:345-361 | True only when the subnet text is non-empty, the address parses and the CIDR parses |
| Bind.DottedQuadCIDR | pkg/bind/client.go:351-354 | A dotted quad followed by "/" and a prefix length of at most 32 parses as that address masked to the prefix, with that mask |
| Bind.MaskedNetworkContains | pkg/bind/client.go:360 | The IPv4 network made by masking an address contains every address that agrees with it under the mask, that address among them |
| Bind.DottedQuadInOwnSubnet | pkg/bind/client.go:345-361 | A dotted quad lies inside every CIDR made of itself and a prefix length of at most 32 |
| Bind.SubnetFamiliesSeparate | pkg/bind/client.go:345-361 | An IPv6 address is never inside a subnet written without a colon |
| Bind.GenerateIPv4PTRZone | pkg/bind/client.go:381-402 | Succeeds exactly for IPv4 text and size 8/16/24, giving the first size/8 octets in reverse order, joined by dots, plus `.in-addr.arpa`. Non-IPv4 input and other sizes give their own errors |
| Bind.NibbleLabels | pkg/bind/client.go:587-592 | There are 32 labels, each one hexadecimal digit |
| Bind.NibbleLabelsStep | pkg/bind/client.go:587-592 | The labels of byte i come right after those of the bytes above it: the low nibble, then the high nibble |
| Bind.NibbleLabelsValue | pkg/bind/client.go:587-592 | Labels 2j and 2j+1 read back as hexadecimal digits give byte 15 - j: the low nibble, then the high nibble |
| Bind.Ipv6ToReverseDNS | pkg/bind/client.go:575-595 | The loop over bytes 15 down to 0 yields the 32 nibble labels joined by dots plus `.ip6.arpa.`, and "" for text that does not parse |
| Bind.ReverseDNS6Labels | pkg/bind/client.go:575-595 | The reverse name splits back into its 32 nibble labels, and trimming the suffix leaves their join |
| Bind.ReverseNameFamily | pkg/bind/client.go:594 | An IPv6 reverse name contains `.ip6.arpa.` and never `.in-addr.arpa.` |
| Bind.IPv6ZoneShape | pkg/bind/client.go:405-443 | generateIPv6PTRZone succeeds exactly for IPv6 text and size 32/48/64, giving the last size/4 nibble labels plus `.ip6.arpa`. IPv4 input and other sizes give their own errors |
| Bind.GetPTRZoneForIP | pkg/bind/client.go:364-378 | Text that does not parse is an InvalidIP error. IPv6 with IPv6 PTR disabled is an error. Otherwise the result is generateIPv6PTRZone's for IPv6 and generateIPv4PTRZone's for IPv4, with the configured size, and a zone returned ends in the family's reverse suffix |
| Bind.ExtractIPv4Zone | pkg/bind/client.go:446-475 | Empty exactly when PTR is off, the name does not have four labels, or the size is unsupported. Otherwise the last size/8 labels plus `.in-addr.arpa` |
| Bind.ExtractIPv6Zone | pkg/bind/client.go:478-514 | Empty exactly when PTR or IPv6 PTR is off, there are fewer than 8 labels, the size is unsupported, or there are fewer labels than the size needs. Otherwise the last size/4 labels joined by dots plus `.ip6.arpa` |
| Bind.IPv4ZoneRoundTrip | pkg/bind/client.go:381-402 | For a dotted quad and a supported size, extracting the zone from the reversed owner name gives generateIPv4PTRZone's zone |
| Bind.IPv6ZoneRoundTrip | pkg/bind/client.go:405-443 | For IPv6 text and a supported size, extracting the zone from the nibble name gives generateIPv6PTRZone's zone |
| Bind.DottedQuadReverseName | pkg/bind/client.go:537-544 | A dotted quad splits into four parts, and its PTR owner name is its reversed octets joined by dots plus `.in-addr.arpa.` |
| Bind.CreatePTRRecord | pkg/bind/client.go:517-572 | With PTR off there is no record and no error. Text that does not parse is an error. IPv4 outside the IPv4 subnet gives no record, and the only other error is a non-four-part split. IPv6 with IPv6 off or outside the subnet gives no record. Otherwise the record is type PTR with value the hostname, TTL the client TTL and the reverse owner name |
| Bind.DottedQuadPtrRecord | pkg/bind/client.go:530-545 | For a dotted quad there is never an error, and a record exists exactly when the address is inside the IPv4 subnet |
| Bind.ValidatedConfigBuildsClient | pkg/bind/client.go:38-68 | A configuration that validates always builds a client |
| Bind.ValidatedClassifierTotal | pkg/config/config.go:243-261 | After validation with PTR enabled, generation and extraction never take their unsupported-size branches. They fail only on input of the wrong family or shape, and for IPv6 this holds when IPv6 is enabled |
| ZoneUpdate.Fqdn | pkg/bind/client.go:138 | dns.Fqdn returns the name or the name plus a dot, and the result always ends in a dot |
| ZoneUpdate.FqdnPlainName | pkg/bind/client.go:150 | For a name without backslashes, a dot is added unless the name already ends in one. The result is fully qualified, and applying Fqdn again changes nothing |
| ZoneUpdate.OwnerOfPlainRecord | pkg/bind/client.go:142-222 | An A/AAAA record is written at `name.zone.`. A PTR record is written at `name.` and points at `value.` |
| ZoneUpdate.UpdateOps | pkg/bind/client.go:142-222 | The update section has two operations per record |
| ZoneUpdate.UpdateOpsAt | pkg/bind/client.go:142-222 | Operations follow record order: operation 2k deletes the RRset of record k's owner and type, and operation 2k+1 inserts record k with its TTL and data |
| ZoneUpdate.ReplyError | pkg/bind/client.go:235-242 | No error exactly when the exchange returns a response with Rcode 0 |
| ZoneUpdate.SendZoneUpdate | pkg/bind/client.go:135-246 | The loop builds the update for the zone with the TSIG name, algorithm and 300 s fudge. The result is the reply's error |
| ZoneUpdate.RecordsIn | pkg/bind/client.go:94-114 | A zone's group holds exactly the records routed to that zone |
| ZoneUpdate.GroupingPartitions | pkg/bind/client.go:94-114 | The grouping has no "" zone and no empty group. Every grouped record is one of the input's and sits under its own zone. Every record with a non-empty zone is grouped |
| ZoneUpdate.GroupingStepUnrouted | pkg/bind/client.go:111-113 | A record whose zone is "" leaves the grouping unchanged |
| ZoneUpdate.GroupingStepRouted | pkg/bind/client.go:111-113 | A record with a non-empty zone is appended to that zone's group, which starts empty when the zone is new. The other groups stay the same |
| ZoneUpdate.GroupingStep | pkg/bind/client.go:111-113 | Appending a record appends it to its zone's group, or changes nothing when its zone is "" |
| ZoneUpdate.GroupByZone | pkg/bind/client.go:94-114 | The map the loop fills is the grouping of the records by ZoneOf |
| ZoneUpdate.RoutingWithoutPtr | pkg/bind/client.go:96-109 | With PTR off, every A/AAAA record goes to the client zone, every PTR record is dropped, and the only zone is the client zone |
| ZoneUpdate.IPv4PtrRecordRouting | pkg/bind/client.go:97-100 | The PTR record made for an in-subnet dotted quad is filed under the zone getPTRZoneForIP names for that address |
| ZoneUpdate.IPv6PtrRecordRouting | pkg/bind/client.go:101-104 | The PTR record made for in-subnet IPv6 text is filed under the zone getPTRZoneForIP names for that address |
| ZoneUpdate.SentFromStep | pkg/bind/client.go:123-129 | Sending one more unsent zone keeps each dispatch tied to its zone's update, and adds the zone to the zones sent |
| ZoneUpdate.SendZones | pkg/bind/client.go:123-131 | Each zone's update goes out at most once, and all dispatches before the last succeeded. There is no error exactly when every reply is success and every zone was sent. Otherwise the error names the last zone and its reply error |
| ZoneUpdate.UpdateRecords | pkg/bind/client.go:71-132 | A dry run or an empty list sends nothing and succeeds. A bad TSIG algorithm fails before any send. Otherwise the zone updates are sent and the function stops at the first zone whose update fails: a failed exchange or a reply other than success |
| App.ReplaceInvalid | pkg/app/app.go:264-265 | Keeps the length. Text without dots comes out in [a-zA-Z0-9-]. Text with no letter, digit or dot comes out as all hyphens. Text already in [a-zA-Z0-9-] is unchanged |
| App.CollapseHyphens | pkg/app/app.go:268-269 | No two hyphens remain in a row, and only hyphens are removed: without its hyphens the result is the input without its hyphens. Text without "--" is unchanged |
| App.CollapseShortensRun | pkg/app/app.go:268-269 | Two hyphens in a row collapse exactly like one, so every run of hyphens leaves one hyphen. With the unchanged result on text without "--", this fixes the result for every text: "a--b" gives "a-b" |
| App.TrimLeft | pkg/app/app.go:272 | The result is a suffix of the input that does not start with '-' or '.', and every character removed in front of it is '-' or '.'. It is the whole input when that already starts cleanly |
| App.TrimRight | pkg/app/app.go:272 | The result is a prefix of the input that does not end with '-' or '.', and every character removed after it is '-' or '.'. It is the whole input when that already ends cleanly |
| App.Trim | pkg/app/app.go:272 | The result neither starts nor ends with '-' or '.'. All-hyphen text becomes empty. Clean ends are unchanged |
| App.TrimKeepsMiddle | pkg/app/app.go:272 | The result of Trim is a contiguous piece of the input, and every character outside it is '-' or '.' |
| App.AsciiLower | pkg/app/app.go:281 | Keeps the length and the hyphen positions, and maps [A-Za-z0-9-] onto [a-z0-9-] |
| App.SanitizeDNSName | pkg/app/app.go:257-282 | The result is non-empty, uses only [a-z0-9-], does not start or end with '-', and has no "--" |
| App.SanitizeLowersLabel | pkg/app/app.go:257-282 | A single label of letters, digits and single inner hyphens comes out lower-cased and otherwise unchanged |
| App.SanitizeKeepsValidName | pkg/app/app.go:257-282 | A name that is already a valid lower-case label comes out unchanged |
| App.AlnumsReplace | pkg/app/app.go:264-265 | Replacing invalid characters keeps exactly the letters and digits, in order |
| App.AlnumsCollapse | pkg/app/app.go:268-269 | Collapsing hyphens keeps exactly the letters and digits, in order |
| App.AlnumsTrim | pkg/app/app.go:272 | Trimming keeps exactly the letters and digits, in order |
| App.AlnumsLower | pkg/app/app.go:281 | Lower-casing and then taking the letters and digits gives the lower-cased letters and digits |
| App.SanitizeKeepsAlphanumerics | pkg/app/app.go:257-282 | When the first label has a letter or digit, the result's letters and digits are exactly that label's letters and digits, in order and lower-cased |
| App.SanitizeIdempotent | pkg/app/app.go:257-282 | Sanitizing a sanitized name changes nothing |
| App.SanitizeDropsDomain | pkg/app/app.go:259-260 | Everything from the first dot onward is dropped |
| App.SanitizeFallback | pkg/app/app.go:276-278 | A first label without any letter or digit becomes "machine" |
| App.MachineRecordName | pkg/app/app.go:153-160 | The record name is the sanitized display name, or the sanitized ID when the name is empty |
| App.MachinesToRecords | pkg/app/app.go:144-191 | The loop produces the forward records of the machines in order, with the TTL in whole seconds |
| App.ForwardRecordsExact | pkg/app/app.go:147-186 | Every forward record is the A or AAAA record of an online machine with that address, and every such record is produced |
| App.ForwardRecordsCount | pkg/app/app.go:147-186 | The count is the online machines with IPv4 plus the online machines with IPv6 |
| App.MachinePtr | pkg/app/app.go:201-237 | One machine's PTR records: none when offline, none when its IPv4 attempt fails, otherwise what its IPv4 and IPv6 attempts made |
| App.CreatePTRRecords | pkg/app/app.go:194-243 | The loop produces the PTR records of the machines in order, and none when PTR is disabled |
| App.MachinePtrRecordsSound | pkg/app/app.go:201-237 | Every PTR record of one machine belongs to an online machine, and is the record CreatePTRRecord made for its non-empty IPv4 or IPv6 address |
| App.MachinePtrRecordsComplete | pkg/app/app.go:215-237 | For an online machine whose IPv4 attempt did not fail, every record CreatePTRRecord makes for its non-empty addresses is kept |
| App.PtrRecordsSound | pkg/app/app.go:194-243 | PTR records exist only with PTR enabled, and each one is among the PTR records of some listed machine, made with host name `<sanitized name>.<zone>` |
| App.PtrRecordsComplete | pkg/app/app.go:194-243 | With PTR enabled, every PTR record of every listed machine is in the result |
| App.NewApp | pkg/app/app.go:42-54 | Fails exactly when a required Bind field is empty. The client is built from the Bind section and its PTR section |
| App.ValidatedConfigBuildsApp | pkg/app/app.go:42-54 | A configuration that validates always builds an application |
| App.ForwardNonEmpty | pkg/app/app.go:147-186 | Forward records exist exactly when some online machine has an address |
| App.PtrNonEmpty | pkg/app/app.go:194-243 | PTR records exist only when some online machine has an address |
| App.SnapshotNonEmpty | pkg/app/app.go:119-128 | A batch yields records exactly when some online machine has an address |
| App.ConvertMachines | pkg/app/app.go:119-128 | The batch is the forward records followed by the PTR records, and it is sent on exactly when some online machine has an address |
| App.IPv4RecordRouted | pkg/app/app.go:217-227 | Under a validated configuration, the PTR record made for a dotted quad has the configured TTL. It is filed under the non-empty zone getPTRZoneForIP names for that address |
| App.IPv6RecordRouted | pkg/app/app.go:229-239 | Under a validated configuration, the PTR record made for IPv6 text has the configured TTL. It is filed under the non-empty zone getPTRZoneForIP names for that address |
| App.PtrRecordRouted | pkg/app/app.go:215-237 | Under a validated configuration with well-formed addresses, each PTR record has the configured TTL and is filed under the non-empty zone getPTRZoneForIP names for its machine's address |
| App.SnapshotRouted | pkg/app/app.go:119-128 | Under a validated configuration with well-formed addresses, UpdateRecords drops no record of a batch: each record is grouped under a non-empty zone (the forward zone for A/AAAA) and has the configured TTL |

## Left out

- The goroutines, channels, tickers and context cancellation are left out: `App.Run`, the select loop of `convertMachinesToRecords`, `StartUpdating` and the Tailscale poller. `ConvertMachines` models one pass of that loop.
- The network exchange is the parameter `exchange`. TSIG signing time and the HMAC computation are library internals, and the model keeps only the key name, the algorithm, the secret and the 300 s fudge.
- `ValidateConnection` is I/O against the server and is left out.
- The Tailscale API client is left out: the `pkg/tailscale` package, how `Online` is derived, the choice of the first IPv4/IPv6 address, and `LastSeen`. `Machine` holds the fields the core reads.
- `LoadConfig`, `setDefaults` and `bindEnvVars` are viper and environment plumbing, and are left out.
- The `cmd/` CLI wiring is left out.
- `GetStatus` builds a status map and is left out.
- Logging is left out.
- NewApp: only the Bind half is modelled. Building the Tailscale client is in the Tailscale package and can fail there for reasons not modelled.
- Durations are whole, non-negative nanoseconds: a negative duration (and so a negative TTL) is not modelled. The TTL is the whole number of seconds. The float `Seconds()` conversion and the `uint32` truncation of very large TTLs are not modelled.
- Address text is parsed by a declarative grammar: dotted quads without leading zeros; IPv6 groups with at most one `::` and an optional embedded dotted quad. Zones such as `%eth0` are rejected. Corner cases of the library's parser outside this grammar are not modelled.
- The data of an A/AAAA insert is the parsed 16-byte address (`Address(ParseIP(value))`). The packing to 4 bytes on the wire is not modelled.
- The regular-expression engine of `sanitizeDNSName` is not modelled: the two replacements are stated character by character.
- App.PtrRecordRouted and App.SnapshotRouted assume dotted-quad IPv4 text and IPv6 text that is not IPv4-mapped, which is what the tailnet reports. For IPv4-mapped text such as `::ffff:10.0.0.5`, `CreatePTRRecord` builds the owner name from the text, and those lemmas say nothing about that case.
- `Validate` accepts an empty IPv4 subnet when PTR is enabled (pkg/config/config.go:237). `isIPInSubnet` is then false for every address, so no IPv4 PTR record is made.
- An error from the IPv4 PTR attempt `continue`s the machine loop, which also skips that machine's IPv6 PTR record (pkg/app/app.go:219-223). The model keeps this.
- Bind.GetPTRZoneForIP: requires a PTR configuration once the address parses. Go dereferences the configuration there (pkg/bind/client.go:371, 374 and 376) and would panic on a nil one. Nothing in the program calls this function, so the panic is not modelled.
