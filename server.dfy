/**
 * The two pieces of the web front end that carry logic of their own: the CSV
 * export of the inventory, and the scan request, which normalises the requested
 * subnets, refuses a request while a scan is running, and scans every non-blank
 * subnet in order.
 */
module Server {
  import opened Wrappers
  import opened Text
  import opened Inventory
  import Scanner

  // ---------------------------------------------------------------------------
  // CSV export

  const CsvHeader: string := "IP Address,Hostname,MAC Address,Vendor,Open Ports,Last Seen"

  /** A hostname or vendor field is wrapped in double quotes exactly when it holds a comma. */
  function Quote(f: string): string
  {
    if ',' in f then "\"" + f + "\"" else f
  }

  /** The reading of a field that strips one pair of surrounding double quotes. */
  function Unquote(f: string): string
  {
    if |f| >= 2 && f[0] == '"' && f[|f| - 1] == '"' then f[1..|f| - 1] else f
  }

  /**
   * The Open Ports field: the rendering of each port entry, joined with commas.
   * `render` stands for Python's `str` of a port dictionary.
   */
  function PortsText(ports: seq<Port>, render: Port -> string): string
  {
    Join(Rendered(ports, render), ',')
  }

  /** The rendering of each port entry, in order. */
  function Rendered(ports: seq<Port>, render: Port -> string): (r: seq<string>)
    ensures |r| == |ports|
    ensures forall k :: 0 <= k < |ports| ==> r[k] == render(ports[k])
  {
    seq(|ports|, k requires 0 <= k < |ports| => render(ports[k]))
  }

  /** One data line of the export. */
  function CsvRow(d: Device, render: Port -> string): string
  {
    d.ip + "," + Quote(d.hostname) + "," + d.mac + "," + Quote(d.vendor) + ","
    + PortsText(d.ports, render) + "," + d.lastSeen
  }

  /** The data lines, one per device, in inventory order. */
  function CsvRows(devices: seq<Device>, render: Port -> string): (rows: seq<string>)
    ensures |rows| == |devices|
    ensures forall k :: 0 <= k < |devices| ==> rows[k] == CsvRow(devices[k], render)
  {
    seq(|devices|, k requires 0 <= k < |devices| => CsvRow(devices[k], render))
  }

  /** The header followed by the data lines. */
  function CsvLines(devices: seq<Device>, render: Port -> string): seq<string>
  {
    [CsvHeader] + CsvRows(devices, render)
  }

  /** No line break in any field of the device's data line. */
  predicate SingleLine(d: Device, render: Port -> string)
  {
    && '\n' !in d.ip && '\n' !in d.hostname && '\n' !in d.mac && '\n' !in d.vendor && '\n' !in d.lastSeen
    && forall k :: 0 <= k < |d.ports| ==> '\n' !in render(d.ports[k])
  }

  /** The text of the export, read from a snapshot of the scanner's results. */
  method ExportCsv(s: Scanner.NetworkScanner, now: string, render: Port -> string) returns (csv: string)
    ensures csv == Join(CsvLines(s.scanResults, render), '\n')
  {
    var results := s.GetResults(now);
    var devices := results.devices;
    var lines := [CsvHeader];
    var i := 0;
    while i < |devices|
      invariant 0 <= i <= |devices|
      invariant lines == [CsvHeader] + CsvRows(devices[..i], render)
    {
      var row := CsvRow(devices[i], render);
      CsvRowsSnoc(devices, i, render);
      lines := lines + [row];
      i := i + 1;
    }
    assert devices[..i] == devices;
    csv := Join(lines, '\n');
  }

  /** The rows of one more device are the earlier rows and then its own. */
  lemma CsvRowsSnoc(devices: seq<Device>, i: nat, render: Port -> string)
    requires i < |devices|
    ensures CsvRows(devices[..i + 1], render) == CsvRows(devices[..i], render) + [CsvRow(devices[i], render)]
  {
    var a := CsvRows(devices[..i + 1], render);
    var b := CsvRows(devices[..i], render) + [CsvRow(devices[i], render)];
    assert |a| == |b|;
    forall k | 0 <= k < |a| ensures a[k] == b[k] {
      assert devices[..i + 1][k] == devices[k];
    }
  }

  /** Quoting is undone by unquoting, unless an unquoted field already looks quoted. */
  lemma QuoteRoundTrip(f: string)
    requires ',' in f || !(|f| >= 2 && f[0] == '"' && f[|f| - 1] == '"')
    ensures Unquote(Quote(f)) == f
    ensures ',' in f <==> Quote(f) != f
  {
    if ',' in f {
      var q := "\"" + f + "\"";
      assert q[1..|q| - 1] == f;
      assert |q| != |f|;
    }
  }

  /** A hostname with a comma is exported quoted; one without is unchanged. */
  lemma QuoteExample()
    ensures Quote("my,host") == "\"my,host\""
    ensures Quote("router") == "router"
  {
    assert "my,host"[2] == ',';
  }

  /** A field that holds no character `c` other than a comma or quote yields a row without `c`. */
  lemma RowAvoids(d: Device, render: Port -> string, c: char)
    requires c != ',' && c != '"'
    requires c !in d.ip && c !in d.hostname && c !in d.mac && c !in d.vendor && c !in d.lastSeen
    requires forall k :: 0 <= k < |d.ports| ==> c !in render(d.ports[k])
    ensures c !in CsvRow(d, render)
  {
    JoinAvoids(Rendered(d.ports, render), ',', c);
    QuoteAvoids(d.hostname, c);
    QuoteAvoids(d.vendor, c);
  }

  /** Quoting adds only double quotes. */
  lemma QuoteAvoids(f: string, c: char)
    requires c != '"' && c !in f
    ensures c !in Quote(f)
  {
    if ',' in f {
      assert Quote(f) == ['"'] + f + ['"'];
    }
  }

  /** The header holds no line break. */
  lemma HeaderSingleLine()
    ensures '\n' !in CsvHeader
  {
    HeaderFirstColumns();
    HeaderAllColumns();
    assert '\n' !in "IP Address,Hostname,";
    assert '\n' !in "MAC Address,Vendor,";
    assert '\n' !in "Open Ports,Last Seen";
  }

  lemma HeaderFirstColumns()
    ensures "IP Address,Hostname," + "MAC Address,Vendor," == "IP Address,Hostname,MAC Address,Vendor,"
  {
  }

  lemma HeaderAllColumns()
    ensures "IP Address,Hostname,MAC Address,Vendor," + "Open Ports,Last Seen" == CsvHeader
  {
  }

  /**
   * The export has one header line and one line per device in order: splitting it
   * at line breaks gives back exactly the header and the rows, provided no field
   * itself holds a line break.
   */
  lemma CsvSplitsIntoLines(devices: seq<Device>, render: Port -> string)
    requires forall k :: 0 <= k < |devices| ==> SingleLine(devices[k], render)
    ensures var lines := Split(Join(CsvLines(devices, render), '\n'), '\n');
      && |lines| == |devices| + 1
      && lines[0] == CsvHeader
      && forall k :: 0 <= k < |devices| ==> lines[k + 1] == CsvRow(devices[k], render)
  {
    var lines := CsvLines(devices, render);
    HeaderSingleLine();
    forall i | 0 <= i < |lines| ensures '\n' !in lines[i] {
      if i > 0 {
        var d := devices[i - 1];
        RowAvoids(d, render, '\n');
      }
    }
    SplitJoin(lines, '\n');
  }

  /** A device with no open ports has an empty ports field: two commas between vendor and last seen. */
  lemma EmptyPortsRow(d: Device, render: Port -> string)
    requires d.ports == []
    ensures CsvRow(d, render) == d.ip + "," + Quote(d.hostname) + "," + d.mac + "," + Quote(d.vendor) + ",," + d.lastSeen
  {
    assert PortsText(d.ports, render) == "";
  }

  /** Two or more ports put a comma inside the ports field, so that field spans several columns. */
  lemma PortsFieldSpansColumns(ports: seq<Port>, render: Port -> string)
    requires |ports| >= 2
    ensures ',' in PortsText(ports, render)
  {
    var parts := Rendered(ports, render);
    assert Join(parts, ',') == parts[0] + [','] + Join(parts[1..], ',');
    assert (parts[0] + [','] + Join(parts[1..], ','))[|parts[0]|] == ',';
  }

  /** The six fields of a data line, hostname and vendor quoted as exported. */
  function RowFields(d: Device, render: Port -> string): seq<string>
  {
    [d.ip, Quote(d.hostname), d.mac, Quote(d.vendor), PortsText(d.ports, render), d.lastSeen]
  }

  /** A data line is its six fields joined by commas. */
  lemma RowIsJoin(d: Device, render: Port -> string)
    ensures CsvRow(d, render) == Join(RowFields(d, render), ',')
  {
    var f := RowFields(d, render);
    assert f[1..][1..][1..][1..][1..] == [d.lastSeen];
    assert Join(f[1..][1..][1..][1..], ',') == f[4] + [','] + d.lastSeen;
    assert Join(f[1..][1..][1..], ',') == f[3] + [','] + (f[4] + [','] + d.lastSeen);
    assert Join(f[1..][1..], ',') == f[2] + [','] + (f[3] + [','] + (f[4] + [','] + d.lastSeen));
    assert Join(f[1..], ',') == f[1] + [','] + (f[2] + [','] + (f[3] + [','] + (f[4] + [','] + d.lastSeen)));
  }

  /**
   * When no field holds a comma and there are no ports, splitting the data line at
   * commas gives back the six columns: ip, hostname, mac and vendor verbatim (the
   * ip and mac are never quoted), an empty ports column and the last-seen stamp.
   */
  lemma RowColumns(d: Device, render: Port -> string)
    requires ',' !in d.ip && ',' !in d.hostname && ',' !in d.mac && ',' !in d.vendor && ',' !in d.lastSeen
    requires d.ports == []
    ensures Split(CsvRow(d, render), ',') == [d.ip, d.hostname, d.mac, d.vendor, "", d.lastSeen]
  {
    assert PortsText(d.ports, render) == "";
    RowIsJoin(d, render);
    SplitJoin(RowFields(d, render), ',');
  }

  // ---------------------------------------------------------------------------
  // Scan requests

  /** The `subnets` member of a request body: missing, one string, or a list of strings. */
  datatype SubnetsField = Absent | Single(subnet: string) | Several(subnets: seq<string>)

  /** A request body; a missing body reads as an empty one. `None` is a missing member. */
  datatype ScanRequest = ScanRequest(subnets: SubnetsField, ports: Option<string>)

  /** The JSON answer and its HTTP status. */
  datatype Response = Response(code: nat, status: string, message: string)

  /** The server's configuration: default ports and the two lookup switches. */
  datatype ServerConfig = ServerConfig(portsToScan: string, enableMacVendor: bool, enableHostname: bool)

  /** The configuration when the environment sets nothing. */
  const DefaultConfig: ServerConfig := ServerConfig(Scanner.DefaultPorts, true, true)

  /**
   * What the k-th scan of a request sees: `world(k)` is what the operating system
   * and the network report while it runs (each scan queries them afresh),
   * `clock(k)` stamps its hosts and `faults(k)` is the host at which it fails, if any.
   */
  datatype Timeline = Timeline(world: nat -> Scanner.Environment, clock: nat -> nat -> string, faults: nat -> Option<nat>)

  /** The list of subnets asked for: `['auto']` when missing, a lone string as a one-element list. */
  function SubnetList(f: SubnetsField): seq<string>
  {
    match f
    case Absent => ["auto"]
    case Single(s) => [s]
    case Several(l) => l
  }

  /** The port specification: the request's if given, the configured default otherwise. */
  function PortsOf(req: ScanRequest, config: ServerConfig): string
  {
    if req.ports.Some? then req.ports.value else config.portsToScan
  }

  /** An entry that is skipped: empty or whitespace only. */
  predicate Blank(s: string)
  {
    Strip(s) == ""
  }

  /** The subnets that are scanned, in request order. */
  function ScanTargets(raw: seq<string>): seq<string>
  {
    if |raw| == 0 then []
    else if Blank(raw[0]) then ScanTargets(raw[1..])
    else [raw[0]] + ScanTargets(raw[1..])
  }

  /**
   * The inventory after scanning `targets` in order, the first of them being the
   * `from`-th scan of the request.
   */
  function Passes(inv: seq<Device>, targets: seq<string>, from: nat, ports: string, config: ServerConfig,
                  vendorReady: bool, tl: Timeline): seq<Device>
    decreases |targets|
  {
    if |targets| == 0 then inv
    else
      var opts := Scanner.ScanOptions(ports, config.enableMacVendor, config.enableHostname);
      Passes(Scanner.ScanPass(inv, targets[0], opts, vendorReady, tl.world(from), tl.clock(from), tl.faults(from)),
             targets[1..], from + 1, ports, config, vendorReady, tl)
  }

  /** The targets from position i on: the i-th entry, unless blank, then the targets after it. */
  lemma TargetsFrom(raw: seq<string>, i: nat)
    requires i < |raw|
    ensures Blank(raw[i]) ==> ScanTargets(raw[i..]) == ScanTargets(raw[i + 1..])
    ensures !Blank(raw[i]) ==> ScanTargets(raw[i..]) == [raw[i]] + ScanTargets(raw[i + 1..])
  {
    assert raw[i..][1..] == raw[i + 1..];
  }

  /** One more scan, with the inventory it produced. */
  lemma PassesStep(before: seq<Device>, after: seq<Device>, t: string, rest: seq<string>, k: nat, ports: string,
                   config: ServerConfig, vendorReady: bool, tl: Timeline)
    requires after == Scanner.ScanPass(before, t, Scanner.ScanOptions(ports, config.enableMacVendor, config.enableHostname),
                                       vendorReady, tl.world(k), tl.clock(k), tl.faults(k))
    ensures Passes(before, [t] + rest, k, ports, config, vendorReady, tl)
         == Passes(after, rest, k + 1, ports, config, vendorReady, tl)
  {
    assert ([t] + rest)[1..] == rest;
  }

  /** The scans still to come after the i-th entry, given what the i-th entry did. */
  lemma EntryStep(before: seq<Device>, after: seq<Device>, subnets: seq<string>, i: nat, k: nat, next: nat,
                  ports: string, config: ServerConfig, vendorReady: bool, tl: Timeline)
    requires i < |subnets|
    requires Blank(subnets[i]) ==> after == before && next == k
    requires !Blank(subnets[i]) ==> next == k + 1 && after == Scanner.ScanPass(before, subnets[i],
               Scanner.ScanOptions(ports, config.enableMacVendor, config.enableHostname), vendorReady, tl.world(k), tl.clock(k), tl.faults(k))
    ensures Passes(after, ScanTargets(subnets[i + 1..]), next, ports, config, vendorReady, tl)
         == Passes(before, ScanTargets(subnets[i..]), k, ports, config, vendorReady, tl)
    ensures next + |ScanTargets(subnets[i + 1..])| == k + |ScanTargets(subnets[i..])|
  {
    TargetsFrom(subnets, i);
    if !Blank(subnets[i]) {
      PassesStep(before, after, subnets[i], ScanTargets(subnets[i + 1..]), k, ports, config, vendorReady, tl);
    }
  }

  /**
   * One entry of the request's list, the i-th, with k scans done before it: a
   * blank entry is skipped, any other is scanned as the k-th scan.
   */
  method ScanEntry(s: Scanner.NetworkScanner, subnet: string, k: nat, ports: string,
                   config: ServerConfig, tl: Timeline)
    returns (next: nat)
    requires s.Valid()
    modifies s
    ensures s.Valid()
    ensures Blank(subnet) ==> next == k && s.scanResults == old(s.scanResults) && s.isScanning == old(s.isScanning)
    ensures !Blank(subnet) ==> next == k + 1 && !s.isScanning
    ensures !Blank(subnet) ==> s.scanResults == Scanner.ScanPass(old(s.scanResults), subnet,
           Scanner.ScanOptions(ports, config.enableMacVendor, config.enableHostname), s.macVendorEnabled, tl.world(k), tl.clock(k), tl.faults(k))
  {
    next := k;
    if !Blank(subnet) {
      var _ := s.ScanNetwork(subnet, ports, config.enableMacVendor, config.enableHostname, tl.world(k), tl.clock(k), tl.faults(k));
      next := k + 1;
    }
  }

  /**
   * The background job of a scan request: every non-blank subnet, in order, is
   * scanned with the given ports and the configured lookup switches; `scans` is
   * the number of scans run. Each scan catches its own failures, so a failure
   * ends that scan only.
   */
  method ScanMultipleSubnets(s: Scanner.NetworkScanner, subnets: seq<string>, ports: string, config: ServerConfig,
                             tl: Timeline)
    returns (scans: nat)
    requires s.Valid()
    modifies s
    ensures s.Valid()
    ensures scans == |ScanTargets(subnets)|
    ensures s.scanResults == Passes(old(s.scanResults), ScanTargets(subnets), 0, ports, config, s.macVendorEnabled, tl)
    ensures s.isScanning == (old(s.isScanning) && scans == 0)
  {
    var i := 0;
    scans := 0;
    ghost var vendorReady := s.macVendorEnabled;
    ghost var goal := Passes(s.scanResults, ScanTargets(subnets), 0, ports, config, vendorReady, tl);
    ghost var wasScanning := s.isScanning;
    ghost var rest := ScanTargets(subnets);
    assert subnets[0..] == subnets;
    while i < |subnets|
      invariant 0 <= i <= |subnets|
      invariant s.Valid()
      invariant rest == ScanTargets(subnets[i..])
      invariant scans + |rest| == |ScanTargets(subnets)|
      invariant Passes(s.scanResults, rest, scans, ports, config, vendorReady, tl) == goal
      invariant s.isScanning == (wasScanning && scans == 0)
    {
      ghost var before := s.scanResults;
      var next := ScanEntry(s, subnets[i], scans, ports, config, tl);
      EntryStep(before, s.scanResults, subnets, i, scans, next, ports, config, vendorReady, tl);
      scans := next;
      rest := ScanTargets(subnets[i + 1..]);
      i := i + 1;
    }
    assert subnets[i..] == [];
  }

  /**
   * A scan request. While a scan is running it is refused with status 400 and
   * nothing changes; otherwise every non-blank requested subnet is scanned in
   * order (the background job is run to completion here) and the request is
   * acknowledged.
   */
  method StartScan(s: Scanner.NetworkScanner, req: ScanRequest, config: ServerConfig,
                   tl: Timeline) returns (resp: Response)
    requires s.Valid()
    modifies s
    ensures s.Valid()
    ensures old(s.isScanning) ==> resp == Response(400, "error", "Scan already in progress")
    ensures old(s.isScanning) ==> s.scanResults == old(s.scanResults) && s.isScanning
    ensures !old(s.isScanning) ==> resp == Response(200, "success", "Scan started")
    ensures !old(s.isScanning) ==> !s.isScanning
    ensures !old(s.isScanning) ==> s.scanResults == Passes(old(s.scanResults), ScanTargets(SubnetList(req.subnets)), 0,
                                                           PortsOf(req, config), config, s.macVendorEnabled, tl)
  {
    var running := s.IsScanRunning();
    if running {
      return Response(400, "error", "Scan already in progress");
    }
    var subnets := SubnetList(req.subnets);
    var ports := PortsOf(req, config);
    var _ := ScanMultipleSubnets(s, subnets, ports, config, tl);
    resp := Response(200, "success", "Scan started");
  }

  // ---------------------------------------------------------------------------
  // Lemmas about requests

  /** Blank means every character is whitespace (the empty string included). */
  lemma BlankSpec(s: string)
    ensures Blank(s) <==> forall i :: 0 <= i < |s| ==> IsSpace(s[i])
  {
    StripEmpty(s);
  }

  /**
   * The scanned subnets are exactly the non-blank entries; none is blank; there are
   * no more of them than entries.
   */
  lemma {:induction false} ScanTargetsSpec(raw: seq<string>)
    ensures forall t :: t in ScanTargets(raw) <==> t in raw && !Blank(t)
    ensures forall k :: 0 <= k < |ScanTargets(raw)| ==> !Blank(ScanTargets(raw)[k])
    ensures |ScanTargets(raw)| <= |raw|
  {
    if |raw| > 0 {
      ScanTargetsSpec(raw[1..]);
      assert raw == [raw[0]] + raw[1..];
    }
  }

  /** Filtering keeps request order: the targets of two lists are the targets of each, in turn. */
  lemma {:induction false} ScanTargetsAppend(a: seq<string>, b: seq<string>)
    ensures ScanTargets(a + b) == ScanTargets(a) + ScanTargets(b)
  {
    if |a| > 0 {
      assert (a + b)[1..] == a[1..] + b;
      ScanTargetsAppend(a[1..], b);
    } else {
      assert a + b == b;
    }
  }

  /** A request without subnets scans the automatically chosen subnet, once. */
  lemma DefaultRequest(inv: seq<Device>, ports: Option<string>, config: ServerConfig, vendorReady: bool,
                       tl: Timeline)
    ensures ScanTargets(SubnetList(Absent)) == ["auto"]
    ensures Passes(inv, ScanTargets(SubnetList(Absent)), 0, PortsOf(ScanRequest(Absent, ports), config), config,
                   vendorReady, tl)
         == Scanner.ScanPass(inv, "auto", Scanner.ScanOptions(PortsOf(ScanRequest(Absent, ports), config),
                                                             config.enableMacVendor, config.enableHostname),
                             vendorReady, tl.world(0), tl.clock(0), tl.faults(0))
    ensures ports.None? ==> PortsOf(ScanRequest(Absent, ports), config) == config.portsToScan
    ensures ports.None? ==> PortsOf(ScanRequest(Absent, ports), DefaultConfig) == "22,80,443,8123"
  {
    assert Strip("auto") == "auto";
    assert ScanTargets(["auto"]) == ["auto"] + ScanTargets([]);
  }

  /** A lone string is the one-element list of it. */
  lemma SingleIsList(subnet: string)
    ensures ScanTargets(SubnetList(Single(subnet))) == ScanTargets(SubnetList(Several([subnet])))
    ensures ScanTargets(SubnetList(Single(subnet))) == (if Blank(subnet) then [] else [subnet])
  {
    assert [subnet][1..] == [];
  }

  /** Blank entries are skipped and the rest kept in order. */
  lemma SkipsBlankExample()
    ensures ScanTargets(["", " \t", "192.168.1.0/24", "10.0.0.0/24"]) == ["192.168.1.0/24", "10.0.0.0/24"]
  {
    assert Strip("") == "";
    assert TrimStart(" \t") == "";
    assert Blank(" \t");
    assert !Blank("192.168.1.0/24") by { assert TrimStart("192.168.1.0/24") == "192.168.1.0/24"; }
    assert !Blank("10.0.0.0/24") by { assert TrimStart("10.0.0.0/24") == "10.0.0.0/24"; }
  }

  /**
   * Across all the scans of a request the inventory keeps unique IPs, never shrinks,
   * never moves an entry, and keeps every IP it had.
   */
  lemma {:induction false} PassesPreserve(inv: seq<Device>, targets: seq<string>, from: nat, ports: string,
                                          config: ServerConfig, vendorReady: bool, tl: Timeline)
    requires UniqueIps(inv)
    ensures var r := Passes(inv, targets, from, ports, config, vendorReady, tl);
      && UniqueIps(r) && |r| >= |inv| && Ips(inv) <= Ips(r)
      && forall j :: 0 <= j < |inv| ==> r[j].ip == inv[j].ip
    decreases |targets|
  {
    if |targets| > 0 {
      var opts := Scanner.ScanOptions(ports, config.enableMacVendor, config.enableHostname);
      var next := Scanner.ScanPass(inv, targets[0], opts, vendorReady, tl.world(from), tl.clock(from), tl.faults(from));
      Scanner.ScanPassEffect(inv, targets[0], opts, vendorReady, tl.world(from), tl.clock(from), tl.faults(from));
      PassesPreserve(next, targets[1..], from + 1, ports, config, vendorReady, tl);
    }
  }
}
