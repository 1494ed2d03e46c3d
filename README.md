# Network scanner inventory, modelled in Dafny

This project models the device-inventory engine of a home-network scanner add-on.
It also models the two pieces of its web server that carry logic of their own.

The scanner:
- finds the live hosts of a subnet with a ping sweep;
- reads the ARP table to learn their hardware (MAC) addresses;
- optionally looks up each host's hostname and the MAC's vendor, and probes a list of ports;
- merges one record per host into a persistent inventory keyed by IP.

A record for an IP that is already present replaces that entry in place. Any other
record is appended. Nothing is ever removed.

The server exports the inventory as CSV text. It also accepts scan requests: it
normalises the requested subnets, refuses a request while a scan runs, and scans
every non-blank subnet in order.

Modules, one per concern of the core:

- `Wrappers`: the `Option` type.
- `Text`: the string operations Python supplies:
  - `str.split` and `str.join`, with a split-after-join round trip;
  - `str.strip`, over Python's whitespace set;
  - decimal rendering and reading of naturals, with a round trip.
- `Subnet`: `calculate_subnet`:
  - the network is the octet-wise AND of address and mask, and the prefix is the mask's set bits;
  - a rendered network reads back as itself;
  - `get_default_gateway_subnet` is reduced to its fallback.
- `Arp`: the two ARP line shapes the scanner recognises, as a hand-written parser.
  The per-line results are folded into a map, so a later line wins.
- `Inventory`: device records and the upsert-by-IP merge, with its invariants.
- `Scanner`: the class `NetworkScanner`. Its methods update `scanResults` and `isScanning` in place.
  Each method is proved against a specification function:
  - one host's record;
  - one whole scan pass, `ScanPass`.
- `Server`: `export_csv`, `start_scan` and its background loop `scan_multiple_subnets`.

The outside world is a parameter, an `Environment` value. It holds:
- the default gateway's address and netmask, if they can be read;
- what a ping sweep of a target reports;
- the platform flag, POSIX or not;
- the `arp -a` output, if the command succeeds;
- the reverse-DNS, vendor-database and port-probe answers.

An adapter whose library call fails sees `None`. The adapter then returns what the
source returns after catching the exception: "", "Unknown" or an empty list.

Timestamps arrive as inputs:
- `now(k)` stamps the k-th host of a pass;
- a request's `Timeline` gives each of its scans its own environment, a clock and a failure point.

## Model

| member | source | states |
|---|---|---|
| Subnet.BitAndIsBitwise | network_scanner/scanner.py:59 | every bit of `a & b` is set exactly when it is set in both operands |
| Subnet.BitAndBelow | network_scanner/scanner.py:59 | `a & b` is at most each operand |
| Subnet.NetworkIsMasked | network_scanner/scanner.py:56-61 | with four octets on both sides, network octet i has exactly the bits set in both ip[i] and mask[i], is no larger than either, and the prefix is the mask's bit count |
| Subnet.CalculateSubnetFails | network_scanner/scanner.py:56-59 | the computation fails (the source's IndexError) exactly when either octet list has fewer than four entries |
| Subnet.PrefixLengthOfFour | network_scanner/scanner.py:61 | the prefix of a four-octet mask is the sum of the four octets' popcounts |
| Subnet.PrefixLengthBound | network_scanner/scanner.py:61 | a mask of byte-sized octets has a prefix of at most 8 per octet |
| Subnet.PrefixAtMost32 | network_scanner/scanner.py:61 | a four-octet mask of bytes gives a prefix in 0..32 |
| Subnet.PopCountBound | network_scanner/scanner.py:61 | a number below 2^k has at most k set bits |
| Subnet.OctetMaskPopCount | network_scanner/scanner.py:61 | an octet of m leading ones has popcount m |
| Subnet.PrefixOfMask | network_scanner/scanner.py:61 | the mask of prefix p (0..32) has prefix length p, so prefix length inverts mask construction |
| Subnet.BitAndAllOnes | network_scanner/scanner.py:59 | masking with all ones below bit k keeps a number below 2^k unchanged |
| Subnet.OctetStringsDigits | network_scanner/scanner.py:59 | each rendered network octet is the non-empty decimal rendering of its value |
| Subnet.CalculateSubnetExample | network_scanner/scanner.py:54-63 | 192.168.1.42 with 255.255.255.0 gives "192.168.1.0/24" |
| Subnet.ParseRender | network_scanner/scanner.py:63 | a rendered four-octet network reads back as the same octets and prefix |
| Subnet.DefaultSubnet | network_scanner/scanner.py:36-52 | the default subnet always reads back as a four-octet network, and is "192.168.1.0/24" when the interface cannot be read |
| Subnet.FallbackLemma | network_scanner/scanner.py:52 | the fallback reads back as network 192.168.1.0 with prefix 24 |
| Arp.UpperMacExample | network_scanner/scanner.py:116 | uppercasing turns aa:bb:cc:dd:ee:ff into AA:BB:CC:DD:EE:FF |
| Arp.OtherMacExample | network_scanner/scanner.py:124 | hyphens become colons before uppercasing: aa-bb-cc-dd-ee-ff gives AA:BB:CC:DD:EE:FF |
| Arp.DigitRunIsMaximal | network_scanner/scanner.py:113 | a `\d+` group takes the longest run of digits: all of it is digits and the next character is not |
| Arp.MatchGroupsSplits | network_scanner/scanner.py:113 | the text matched by the dotted-quad part splits at dots into exactly four non-empty digit runs |
| Arp.JoinedGroupsMatch | network_scanner/scanner.py:113 | non-empty digit groups joined by dots, followed by a non-digit, are matched in full |
| Arp.SearchSkips | network_scanner/scanner.py:113-121 | `re.search` finds the first match: a prefix with no '(' (POSIX) or no digit (other) is skipped over |
| Arp.StoredMacOf | network_scanner/scanner.py:116-124 | a 17-character MAC of either accepted alphabet is stored with only digits, A-F and ':' (no lowercase, no '-') |
| Arp.MatchAtWellFormed | network_scanner/scanner.py:113-124 | a match at one position yields a dotted quad and a stored-form MAC |
| Arp.ParseLine | network_scanner/scanner.py:113-124 | any entry parsed from a line has a dotted-quad IP and a stored-form MAC, and is spelled out in the line in the platform's shape: `(ip) at mac` (POSIX) or `ip`, whitespace, `mac` (other), where the 17 MAC characters normalise to the stored MAC |
| Arp.SearchFound | network_scanner/scanner.py:113-121 | whatever `re.search` finds occurs at some position of the searched text in the pattern's shape |
| Arp.PosixLineParses | network_scanner/scanner.py:112-117 | a line `prefix (a.b.c.d) at <17 MAC chars><rest>`, with no '(' in the prefix, yields that IP and the uppercased MAC |
| Arp.OtherLineParses | network_scanner/scanner.py:120-125 | a line `prefix a.b.c.d <whitespace> <17 MAC chars><rest>`, with no digit in the prefix, yields that IP and the uppercased, colon-separated MAC |
| Arp.PosixExample | network_scanner/scanner.py:112-117 | `? (192.168.1.5) at aa:bb:cc:dd:ee:ff [ether] on eth0` yields 192.168.1.5 -> AA:BB:CC:DD:EE:FF |
| Arp.OtherExample | network_scanner/scanner.py:120-125 | `  192.168.1.1          aa-bb-cc-dd-ee-ff     dynamic` yields 192.168.1.1 -> AA:BB:CC:DD:EE:FF |
| Arp.TableStep | network_scanner/scanner.py:114-125 | one more line leaves the table alone when it does not match, and otherwise sets its IP to its MAC |
| Arp.TableWellFormed | network_scanner/scanner.py:108-125 | folding well-formed entries gives a table of dotted quads to stored-form MACs |
| Arp.ArpTableWellFormed | network_scanner/scanner.py:108-129 | every key of the ARP table is a dotted quad and every value a stored-form MAC |
| Arp.TableKeys | network_scanner/scanner.py:117-125 | an IP is a key of the folded table exactly when some entry carries it |
| Arp.ArpTableKeys | network_scanner/scanner.py:112-125 | an IP is in the ARP table exactly when some line parses to an entry with that IP |
| Arp.TableLastWins | network_scanner/scanner.py:117-125 | an entry not followed by another for the same IP determines that IP's value |
| Arp.ArpTableLastWins | network_scanner/scanner.py:112-125 | for a repeated IP the last matching line's MAC is the one stored |
| Arp.ArpTableSkips | network_scanner/scanner.py:114-122 | a line that does not match adds nothing to the table |
| Inventory.IndexOfIp | network_scanner/scanner.py:194 | the result is the first position holding the IP, or none when no entry has it |
| Inventory.MergeAllSnoc | network_scanner/scanner.py:167-200 | merging one more record is one more upsert |
| Inventory.UpsertLength | network_scanner/scanner.py:195-200 | the length grows by exactly one when the IP was absent and is unchanged when it was present |
| Inventory.UpsertKeepsOthers | network_scanner/scanner.py:195-200 | an upsert never shrinks the list or moves an IP, and leaves every entry with another IP unchanged |
| Inventory.UpsertIps | network_scanner/scanner.py:195-200 | the IPs afterwards are the IPs before plus the record's IP |
| Inventory.UpsertKeepsUnique | network_scanner/scanner.py:192-200 | unique IPs stay unique, and the entry with the record's IP is the record |
| Inventory.MergeAllKeepsUnique | network_scanner/scanner.py:167-200 | merging any sequence of records keeps IPs unique |
| Inventory.MergeAllIps | network_scanner/scanner.py:167-200 | the IPs after merging are the old IPs plus the records' IPs |
| Inventory.MergeAllKeepsEntries | network_scanner/scanner.py:152-200 | merging never shrinks or moves an entry, and an entry whose IP is in no record is unchanged |
| Inventory.MergeAllOrigin | network_scanner/scanner.py:191-200 | every entry afterwards is one of the records, or the old entry at that position for an IP no record has |
| Inventory.MergeAllKnownIps | network_scanner/scanner.py:195-197 | records whose IPs are all known leave the length unchanged |
| Inventory.MergeAllLastWins | network_scanner/scanner.py:195-200 | the entry for an IP is the last record carrying it |
| Inventory.Remerge | network_scanner/scanner.py:191-200 | re-merging records for already-merged IPs changes neither the length nor the IP set |
| Scanner.NetworkScanner.constructor | network_scanner/scanner.py:15-34 | the inventory starts empty and idle, with vendor lookup enabled as the vendor database allowed |
| Scanner.HostnameOf | network_scanner/scanner.py:65-71 | the reverse-DNS name, or "" when the lookup fails |
| Scanner.NetworkScanner.GetMacVendor | network_scanner/scanner.py:73-81 | the database's vendor, and "Unknown" when lookup is disabled or fails |
| Scanner.NetworkScanner.ScanPorts | network_scanner/scanner.py:83-104 | the probe's open ports in report order, each with state "open"; none when the probe fails |
| Scanner.OpenPortsSpec | network_scanner/scanner.py:95-100 | a port entry is kept exactly when it was reported and is open |
| Scanner.OpenPortsAreOpen | network_scanner/scanner.py:95 | every kept port entry has state "open" |
| Scanner.NetworkScanner.GetArpTable | network_scanner/scanner.py:106-129 | the table folded from the `arp -a` lines, empty when the command fails, with dotted-quad keys and stored-form MACs |
| Scanner.NetworkScanner.PingSweep | network_scanner/scanner.py:131-145 | the hosts reported "up", in report order; none when the sweep fails |
| Scanner.UpHostsSpec | network_scanner/scanner.py:138-140 | a host is kept exactly when some report gives it state "up" |
| Scanner.NetworkScanner.BuildDevice | network_scanner/scanner.py:170-189 | the record of one host, as the record rules below fix it |
| Scanner.RecordFields | network_scanner/scanner.py:170-189 | the hostname is set only when enabled, from reverse DNS; mac and vendor stay "" for an IP outside the ARP map; the vendor is looked up only when enabled and the MAC is non-empty; ports stay empty without a port list and are all open; the status is "online" |
| Scanner.NetworkScanner.FindDevice | network_scanner/scanner.py:194 | the first position holding the IP, or none |
| Scanner.IndexOfIpIsFirst | network_scanner/scanner.py:194 | a position holding the IP with no earlier one is the one found |
| Scanner.IndexOfIpAbsent | network_scanner/scanner.py:194 | no entry with the IP means none is found |
| Scanner.NetworkScanner.Merge | network_scanner/scanner.py:192-200 | the inventory becomes the upsert of the record, with IPs still unique |
| Scanner.NetworkScanner.ScanHost | network_scanner/scanner.py:167-200 | one more live host's record is merged, and the busy flag is left as it was |
| Scanner.NetworkScanner.MergeLiveHosts | network_scanner/scanner.py:167-200 | the records of the first `count` live hosts are merged in order, and the busy flag is left as it was (set, during a scan) |
| Scanner.Processed | network_scanner/scanner.py:167-207 | a pass that fails at host k processes the first k hosts, never more than there are |
| Scanner.NetworkScanner.ScanNetwork | network_scanner/scanner.py:147-212 | the inventory becomes the scan-pass function of the old inventory; the busy flag is clear afterwards; the result is the inventory |
| Scanner.PassRecordsAt | network_scanner/scanner.py:167-189 | a pass has one record per processed host, in order, the k-th for host k stamped now(k) |
| Scanner.PassStep | network_scanner/scanner.py:191-200 | merging one more host's record extends the pass by that host |
| Scanner.PassRecordsIps | network_scanner/scanner.py:167-178 | the IPs of a pass's records are exactly the processed hosts |
| Scanner.ScanPassEffect | network_scanner/scanner.py:152-200 | a pass keeps IPs unique; it adds exactly the processed hosts to the IPs; it never shrinks or moves an entry; every entry is a record of this pass or the entry that stood there before |
| Scanner.AbortedPass | network_scanner/scanner.py:204-210 | a pass failing at host k merges the records of hosts before k only; failing at host 0 leaves the inventory as it was |
| Scanner.RescanIsStable | network_scanner/scanner.py:191-200 | rescanning an unchanged network to completion keeps the device count and the IP set |
| Scanner.TwoHostScan | network_scanner/scanner.py:167-200 | a first scan with two distinct hosts up and all lookups off gives those two online devices in discovery order, with empty details |
| Scanner.NetworkScanner.GetResults | network_scanner/scanner.py:214-222 | a snapshot of the devices, their count, the busy flag and the given time |
| Scanner.NetworkScanner.IsScanRunning | network_scanner/scanner.py:224-227 | the busy flag |
| Server.ExportCsv | network_scanner/server.py:139-164 | the export is the header and one row per device in inventory order, joined with line breaks |
| Server.CsvRowsSnoc | network_scanner/server.py:148-160 | the rows of one more device are the earlier rows and then its row |
| Server.CsvSplitsIntoLines | network_scanner/server.py:146-162 | when no field holds a line break, the export splits into `len(devices) + 1` lines: line 0 is the header, line k + 1 the row of device k |
| Server.HeaderSingleLine | network_scanner/server.py:146 | the header has no line break |
| Server.QuoteRoundTrip | network_scanner/server.py:157-158 | a field is changed by quoting exactly when it holds a comma, and removing the quotes gives the field back |
| Server.QuoteExample | network_scanner/server.py:157 | `my,host` is exported as `"my,host"`; `router` is exported unchanged |
| Server.QuoteAvoids | network_scanner/server.py:157-158 | quoting adds only double quotes |
| Server.RowAvoids | network_scanner/server.py:149-160 | a character other than ',' and '"' that is in no field is not in the row |
| Server.RowIsJoin | network_scanner/server.py:160 | a row is ip, quoted hostname, mac, quoted vendor, ports field and last-seen, joined with commas |
| Server.RowColumns | network_scanner/server.py:149-160 | with no comma in any field and no ports, the row splits at commas into ip, hostname, mac, vendor, "" and last-seen: ip and mac are never quoted |
| Server.EmptyPortsRow | network_scanner/server.py:153-160 | a device without ports has an empty ports field, so two adjacent commas lie between vendor and last-seen |
| Server.PortsFieldSpansColumns | network_scanner/server.py:153-160 | with two or more ports the unquoted ports field holds a comma, so it does not stay one CSV column |
| Server.BlankSpec | network_scanner/server.py:92 | an entry is skipped exactly when every character is whitespace, the empty entry included |
| Server.ScanTargetsSpec | network_scanner/server.py:91-92 | a subnet is scanned exactly when it is in the list and not blank; none scanned is blank; no more are scanned than listed |
| Server.ScanTargetsAppend | network_scanner/server.py:91-94 | the subnets of two lists are scanned as each list's, one after the other, so list order is kept |
| Server.DefaultRequest | network_scanner/server.py:82-84 | a request without subnets scans "auto" once, with the configured ports when it gives none, which are "22,80,443,8123" under the default configuration |
| Server.SingleIsList | network_scanner/server.py:86-87 | a lone string is treated as the one-element list of it |
| Server.SkipsBlankExample | network_scanner/server.py:91-92 | "", " \t" are skipped; "192.168.1.0/24", "10.0.0.0/24" are scanned in that order |
| Server.TargetsFrom | network_scanner/server.py:91-92 | from entry i on, the scanned subnets are entry i (unless blank) and then those after it |
| Server.PassesStep | network_scanner/server.py:91-94 | one more scan continues the run from the inventory it produced |
| Server.EntryStep | network_scanner/server.py:91-94 | what entry i does, skip or scan, carries the remaining run and the remaining count forward |
| Server.ScanEntry | network_scanner/server.py:92-94 | a blank entry changes nothing; any other is scanned as the next pass and leaves the busy flag clear |
| Server.ScanMultipleSubnets | network_scanner/server.py:89-99 | the scans run number the non-blank subnets; the inventory is the result of scanning them in order; the busy flag stays set only if it was set and nothing was scanned |
| Server.StartScan | network_scanner/server.py:74-105 | while a scan runs: status 400 "Scan already in progress", inventory unchanged; otherwise every non-blank requested subnet is scanned in order with the request's or the configured ports, and the answer is "Scan started" |
| Server.PassesPreserve | network_scanner/server.py:89-99 | across all scans of a request the IPs stay unique, no entry is lost or moved, and every earlier IP remains |

## Left out

- nmap, netifaces, `arp -a`, reverse DNS and the MAC vendor database are foreign libraries and OS calls. Their answers are fields of `Environment`; a failing call is `None`.
- Locks and the background thread are concurrency, which is not modelled. Each locked section is treated as atomic.
- `start_scan` runs its background job to completion before answering.
- The race between `is_scan_running` and the flag being set is present in the source and not excluded here.
- `datetime.now()` is not modelled. Stamps come from `now`, `Timeline.clock` and the `GetResults` argument.
- The Flask routes, static files, the proxy fix, the `waitress` server, ingress checks and `get_status` are served framework code outside the core.
- Request and response logging, `print` and `traceback` output are I/O.
- Reading the environment variables for configuration is not modelled. `ServerConfig` holds their values, and `DefaultConfig` their defaults.
- The lazy `get_scanner` global is not modelled: the scanner object is passed in.
- `get_default_gateway_subnet` is not modelled beyond its result, because it is an OS lookup. The gateway's address and mask arrive already split into integer octets, or `None` when they cannot be read. A non-numeric octet cannot be expressed.
- Unexpected failures inside `scan_network` are modelled as the host index at which the pass stops. The adapters catch their own errors. An exception at host k leaves hosts before k merged.
- `Arp.ParseLine`: `\d` matches ASCII digits only. Python's `\d` also matches other Unicode decimal digits, which `arp -a` does not print.
- Text is modelled without case folding beyond ASCII. `str.upper()` is applied to MAC characters, which are ASCII.
- Server.ExportCsv: the `.get` defaults for missing device keys are not modelled, because every record the scanner builds has all keys.
- Server.PortsText: `str()` of a port dictionary is the abstract parameter `render`.
- Server.StartScan: JSON values of other types are not modelled: a `subnets` that is neither a string nor a list of strings, a list entry that is not a string, and a `ports` that is not a string. In the source a falsy entry such as `None` or `0` is skipped by the guard at server.py:92, a truthy non-string entry makes `strip()` raise and ends the remaining loop in the `except` at server.py:96, and a dict `subnets` is iterated by its keys. A falsy `ports` skips the port probe (scanner.py:188); a truthy non-string one makes the probe fail inside scan_ports' own `try`, which gives no ports.
- A missing request body is modelled as an empty request.
- The unused `existing_ips` set in `scan_network` computes nothing that is used, so it is not modelled.
- Within one scan the environment is a single value, so two probes of the same input give the same answer. Each scan of a request sees its own environment, `Timeline.world(k)`.
- The port probe reports a flat list. The nested protocol and port loops are not modelled; they are flattened in report order.
