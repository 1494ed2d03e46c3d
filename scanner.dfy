/**
 * The network scanner: host discovery over a subnet, an ARP-table lookup, an
 * optional reverse-DNS and vendor lookup and port probe per live host, and the
 * merge of each host's record into the scanner's inventory.
 *
 * The outside world (the gateway lookup, the host-discovery sweep, the `arp -a`
 * output, reverse DNS, the vendor database and the port prober) is an explicit
 * `Environment` value; a lookup that fails is `None`.
 */
module Scanner {
  import opened Wrappers
  import opened Text
  import Subnet
  import Arp
  import opened Inventory

  /** One host reported by the discovery sweep, with the state the sweep gave it. */
  datatype HostReport = HostReport(host: string, state: string)

  datatype Environment = Environment(
    /** The default interface's IPv4 address and netmask as octets; None when the lookup fails. */
    gateway: Option<(seq<nat>, seq<nat>)>,
    /** The hosts a discovery sweep of a target reports; None when the sweep fails. */
    sweep: string -> Option<seq<HostReport>>,
    /** Whether the platform is POSIX, which selects the `arp -a` line format. */
    posix: bool,
    /** The text `arp -a` prints; None when it cannot be run. */
    arpOutput: Option<string>,
    /** The reverse-DNS name of an address; None when the lookup fails. */
    reverseDns: string -> Option<string>,
    /** The vendor database's answer for a MAC; None when the lookup raises. */
    vendorDb: string -> Option<string>,
    /** Every port a probe of (host, port list) reports; None when the probe fails or the host is absent. */
    portProbe: (string, string) -> Option<seq<Port>>)

  /** The per-scan switches. */
  datatype ScanOptions = ScanOptions(ports: string, enableMacVendor: bool, enableHostname: bool)

  /** What `get_results` hands out. */
  datatype Results = Results(devices: seq<Device>, totalDevices: nat, isScanning: bool, lastUpdate: string)

  const DefaultPorts: string := "22,80,443,8123"

  // ---------------------------------------------------------------------------
  // Specification functions

  /** The hosts whose state is "up", in report order. */
  function UpHosts(reports: seq<HostReport>): seq<string>
  {
    if |reports| == 0 then []
    else
      var last := reports[|reports| - 1];
      UpHosts(reports[..|reports| - 1]) + if last.state == "up" then [last.host] else []
  }

  /** The ports whose state is "open", in report order. */
  function OpenPorts(reports: seq<Port>): seq<Port>
  {
    if |reports| == 0 then []
    else
      var last := reports[|reports| - 1];
      OpenPorts(reports[..|reports| - 1]) + if last.state == "open" then [last] else []
  }

  /** The scan target: "auto" stands for the default interface's subnet. */
  function Target(subnet: string, env: Environment): string
  {
    if subnet == "auto" then Subnet.DefaultSubnet(env.gateway) else subnet
  }

  /** The live hosts of a target; none when the sweep fails. */
  function LiveHosts(env: Environment, target: string): seq<string>
  {
    match env.sweep(target)
    case None => []
    case Some(reports) => UpHosts(reports)
  }

  /** The IP-to-MAC map read from `arp -a`; empty when it cannot be run. */
  function ArpMap(env: Environment): map<string, string>
  {
    match env.arpOutput
    case None => map[]
    case Some(output) => Arp.ArpTableOf(Split(output, '\n'), env.posix)
  }

  /** The reverse-DNS name of an address, or "" when the lookup fails. */
  function HostnameOf(env: Environment, ip: string): (h: string)
    ensures env.reverseDns(ip).None? ==> h == ""
    ensures env.reverseDns(ip).Some? ==> h == env.reverseDns(ip).value
  {
    match env.reverseDns(ip)
    case None => ""
    case Some(name) => name
  }

  /** The vendor of a MAC, or "Unknown" when lookups are disabled or the lookup raises. */
  function VendorOf(enabled: bool, env: Environment, mac: string): string
  {
    if !enabled then "Unknown"
    else match env.vendorDb(mac)
      case None => "Unknown"
      case Some(v) => v
  }

  /** The open ports a probe finds; none when the probe fails. */
  function ProbeOpenPorts(env: Environment, ip: string, ports: string): seq<Port>
  {
    match env.portProbe(ip, ports)
    case None => []
    case Some(reports) => OpenPorts(reports)
  }

  /** The hostname field: the reverse-DNS name when lookups are on, otherwise "". */
  function HostnameField(opts: ScanOptions, env: Environment, ip: string): string
  {
    if opts.enableHostname then HostnameOf(env, ip) else ""
  }

  /** The MAC field: the ARP map's entry for the host, otherwise "". */
  function MacField(arp: map<string, string>, ip: string): string
  {
    if ip in arp then arp[ip] else ""
  }

  /** The vendor field: looked up only for a host in the ARP map with a non-empty MAC and lookups on. */
  function VendorField(arp: map<string, string>, opts: ScanOptions, vendorReady: bool, env: Environment, ip: string): string
  {
    if ip in arp && opts.enableMacVendor && arp[ip] != "" then VendorOf(vendorReady, env, arp[ip]) else ""
  }

  /** The ports field: probed only when a port list is given. */
  function PortsField(opts: ScanOptions, env: Environment, ip: string): seq<Port>
  {
    if opts.ports != "" then ProbeOpenPorts(env, ip, opts.ports) else []
  }

  /** The record built for one live host stamped `stamp`. */
  function Record(ip: string, stamp: string, arp: map<string, string>, opts: ScanOptions,
                  vendorReady: bool, env: Environment): Device
  {
    Device(ip, HostnameField(opts, env, ip), MacField(arp, ip), VendorField(arp, opts, vendorReady, env, ip),
           PortsField(opts, env, ip), stamp, "online")
  }

  /** The records of the first `n` live hosts, the k-th stamped `now(k)`. */
  function PassRecords(live: seq<string>, n: nat, now: nat -> string, arp: map<string, string>,
                       opts: ScanOptions, vendorReady: bool, env: Environment): seq<Device>
    requires n <= |live|
  {
    if n == 0 then []
    else PassRecords(live, n - 1, now, arp, opts, vendorReady, env) + [Record(live[n - 1], now(n - 1), arp, opts, vendorReady, env)]
  }

  /** How many hosts a pass processes when it raises at host `abortAt`. */
  function Processed(n: nat, abortAt: Option<nat>): (r: nat)
    ensures r <= n
  {
    match abortAt
    case Some(k) => if k < n then k else n
    case None => n
  }

  /** The inventory after one pass of `scan_network` over `inv`. */
  function ScanPass(inv: seq<Device>, subnet: string, opts: ScanOptions, vendorReady: bool,
                    env: Environment, now: nat -> string, abortAt: Option<nat>): seq<Device>
  {
    var live := LiveHosts(env, Target(subnet, env));
    MergeAll(inv, PassRecords(live, Processed(|live|, abortAt), now, ArpMap(env), opts, vendorReady, env))
  }

  // ---------------------------------------------------------------------------
  // The scanner object

  class NetworkScanner {
    /** Whether the vendor database could be loaded when the scanner was created. */
    const macVendorEnabled: bool
    var scanResults: seq<Device>
    var isScanning: bool

    /** The inventory holds at most one entry per IP. */
    ghost predicate Valid()
      reads this
    {
      UniqueIps(scanResults)
    }

    constructor(vendorDbReady: bool)
      ensures Valid()
      ensures macVendorEnabled == vendorDbReady
      ensures scanResults == [] && !isScanning
    {
      macVendorEnabled := vendorDbReady;
      scanResults := [];
      isScanning := false;
    }

    /** The vendor of a MAC, "Unknown" when lookups are disabled or fail. */
    method GetMacVendor(mac: string, env: Environment) returns (vendor: string)
      ensures vendor == VendorOf(macVendorEnabled, env, mac)
      ensures !macVendorEnabled ==> vendor == "Unknown"
      ensures env.vendorDb(mac).None? ==> vendor == "Unknown"
    {
      if !macVendorEnabled {
        return "Unknown";
      }
      match env.vendorDb(mac)
      case None => vendor := "Unknown";
      case Some(v) => vendor := v;
    }

    /** The open ports of one host: every reported port whose state is "open", in order. */
    method ScanPorts(ip: string, ports: string, env: Environment) returns (open: seq<Port>)
      ensures open == ProbeOpenPorts(env, ip, ports)
      ensures forall k :: 0 <= k < |open| ==> open[k].state == "open"
    {
      open := [];
      match env.portProbe(ip, ports)
      case None =>
      case Some(reports) =>
        var i := 0;
        while i < |reports|
          invariant 0 <= i <= |reports|
          invariant open == OpenPorts(reports[..i])
        {
          assert reports[..i + 1][..i] == reports[..i];
          if reports[i].state == "open" {
            open := open + [reports[i]];
          }
          i := i + 1;
        }
        assert reports[..i] == reports;
        OpenPortsAreOpen(reports);
    }

    /** The IP-to-MAC map, built line by line from the `arp -a` output. */
    method GetArpTable(env: Environment) returns (table: map<string, string>)
      ensures table == ArpMap(env)
      ensures forall ip :: ip in table ==> Arp.IsDottedQuad(ip) && Arp.IsStoredMac(table[ip])
    {
      table := map[];
      match env.arpOutput
      case None =>
      case Some(output) =>
        var lines := Split(output, '\n');
        ghost var entries := Arp.ParseAll(lines, env.posix);
        var i := 0;
        while i < |lines|
          invariant 0 <= i <= |lines|
          invariant table == Arp.TableOf(entries[..i])
        {
          var entry := Arp.ParseLine(lines[i], env.posix);
          Arp.TableStep(entries, i, table);
          if entry.Some? {
            table := table[entry.value.ip := entry.value.mac];
          }
          i := i + 1;
        }
        assert entries[..i] == entries;
        Arp.ArpTableWellFormed(lines, env.posix);
    }

    /** The hosts a discovery sweep reports as "up", in order; none when it fails. */
    method PingSweep(target: string, env: Environment) returns (live: seq<string>)
      ensures live == LiveHosts(env, target)
    {
      live := [];
      match env.sweep(target)
      case None =>
      case Some(reports) =>
        var i := 0;
        while i < |reports|
          invariant 0 <= i <= |reports|
          invariant live == UpHosts(reports[..i])
        {
          assert reports[..i + 1][..i] == reports[..i];
          if reports[i].state == "up" {
            live := live + [reports[i].host];
          }
          i := i + 1;
        }
        assert reports[..i] == reports;
    }

    /** The record of one live host. */
    method BuildDevice(ip: string, stamp: string, arp: map<string, string>, ports: string,
                       enableMacVendor: bool, enableHostname: bool, env: Environment) returns (d: Device)
      ensures d == Record(ip, stamp, arp, ScanOptions(ports, enableMacVendor, enableHostname), macVendorEnabled, env)
    {
      d := Device(ip, "", "", "", [], stamp, "online");
      if enableHostname {
        d := d.(hostname := HostnameOf(env, ip));
      }
      if ip in arp {
        d := d.(mac := arp[ip]);
        if enableMacVendor && d.mac != "" {
          var vendor := GetMacVendor(d.mac, env);
          d := d.(vendor := vendor);
        }
      }
      if ports != "" {
        var open := ScanPorts(ip, ports, env);
        d := d.(ports := open);
      }
    }

    /** The first position of the inventory holding `ip`. */
    method FindDevice(ip: string) returns (idx: Option<nat>)
      ensures idx == IndexOfIp(scanResults, ip)
    {
      var i := 0;
      while i < |scanResults|
        invariant 0 <= i <= |scanResults|
        invariant forall j :: 0 <= j < i ==> scanResults[j].ip != ip
      {
        if scanResults[i].ip == ip {
          IndexOfIpIsFirst(scanResults, ip, i);
          return Some(i);
        }
        i := i + 1;
      }
      IndexOfIpAbsent(scanResults, ip);
      return None;
    }

    /** Overwrites the entry with the record's IP in place, or appends the record. */
    method Merge(d: Device)
      requires Valid()
      modifies this
      ensures Valid()
      ensures scanResults == Upsert(old(scanResults), d)
      ensures isScanning == old(isScanning)
    {
      UpsertKeepsUnique(scanResults, d);
      var idx := FindDevice(d.ip);
      match idx
      case Some(i) => scanResults := scanResults[i := d];
      case None => scanResults := scanResults + [d];
    }

    /**
     * The body of the per-host loop: build the record of live host `idx`, stamped
     * `now(idx)`, and merge it, which extends the pass by one host.
     */
    method ScanHost(live: seq<string>, idx: nat, arp: map<string, string>, ports: string,
                    enableMacVendor: bool, enableHostname: bool, env: Environment, now: nat -> string,
                    ghost initial: seq<Device>)
      requires idx < |live|
      requires Valid()
      requires scanResults == MergeAll(initial, PassRecords(live, idx, now, arp,
                                       ScanOptions(ports, enableMacVendor, enableHostname), macVendorEnabled, env))
      modifies this
      ensures Valid()
      ensures scanResults == MergeAll(initial, PassRecords(live, idx + 1, now, arp,
                                      ScanOptions(ports, enableMacVendor, enableHostname), macVendorEnabled, env))
      ensures isScanning == old(isScanning)
    {
      ghost var before := scanResults;
      var d := BuildDevice(live[idx], now(idx), arp, ports, enableMacVendor, enableHostname, env);
      Merge(d);
      PassStep(initial, live, idx, now, arp, ScanOptions(ports, enableMacVendor, enableHostname), macVendorEnabled, env, before, scanResults);
    }

    /**
     * The per-host loop of a scan over the first `count` live hosts: build each
     * host's record in turn, the k-th stamped `now(k)`, and merge it.
     */
    method MergeLiveHosts(live: seq<string>, arp: map<string, string>, ports: string,
                          enableMacVendor: bool, enableHostname: bool,
                          env: Environment, now: nat -> string, count: nat)
      requires count <= |live|
      requires Valid()
      modifies this
      ensures Valid()
      ensures scanResults == MergeAll(old(scanResults), PassRecords(live, count, now, arp,
                                      ScanOptions(ports, enableMacVendor, enableHostname), macVendorEnabled, env))
      ensures isScanning == old(isScanning)
    {
      ghost var initial := scanResults;
      ghost var flag := isScanning;
      var idx := 0;
      while idx < count
        invariant 0 <= idx <= count
        invariant Valid()
        invariant scanResults == MergeAll(initial, PassRecords(live, idx, now, arp,
                                          ScanOptions(ports, enableMacVendor, enableHostname), macVendorEnabled, env))
        invariant isScanning == flag
      {
        ScanHost(live, idx, arp, ports, enableMacVendor, enableHostname, env, now, initial);
        idx := idx + 1;
      }
    }

    /**
     * One scan of `subnet`. The k-th live host is stamped `now(k)`; `abortAt` is
     * the host at which an unexpected error ends the pass, if any. The busy flag
     * is set for the duration and cleared however the pass ends.
     */
    method ScanNetwork(subnet: string, ports: string, enableMacVendor: bool, enableHostname: bool,
                       env: Environment, now: nat -> string, abortAt: Option<nat>)
      returns (results: seq<Device>)
      requires Valid()
      modifies this
      ensures Valid()
      ensures !isScanning
      ensures scanResults == ScanPass(old(scanResults), subnet, ScanOptions(ports, enableMacVendor, enableHostname),
                                      macVendorEnabled, env, now, abortAt)
      ensures results == scanResults
    {
      isScanning := true;
      var target := subnet;
      if target == "auto" {
        target := Subnet.DefaultSubnet(env.gateway);
      }
      var live := PingSweep(target, env);
      var arp := GetArpTable(env);
      MergeLiveHosts(live, arp, ports, enableMacVendor, enableHostname, env, now, Processed(|live|, abortAt));
      assert isScanning;
      isScanning := false;
      results := scanResults;
    }

    /** A snapshot of the inventory, its size, the busy flag and the time of the snapshot. */
    method GetResults(now: string) returns (r: Results)
      ensures r.devices == scanResults && r.totalDevices == |r.devices|
      ensures r.isScanning == isScanning && r.lastUpdate == now
    {
      r := Results(scanResults, |scanResults|, isScanning, now);
    }

    method IsScanRunning() returns (running: bool)
      ensures running == isScanning
    {
      running := isScanning;
    }
  }

  // ---------------------------------------------------------------------------
  // Lemmas

  /** A host is live exactly when some report gives it the state "up". */
  lemma {:induction false} UpHostsSpec(reports: seq<HostReport>, h: string)
    ensures h in UpHosts(reports) <==> exists i :: 0 <= i < |reports| && reports[i].host == h && reports[i].state == "up"
    ensures |UpHosts(reports)| <= |reports|
  {
    if |reports| > 0 {
      var init := reports[..|reports| - 1];
      UpHostsSpec(init, h);
      if h in UpHosts(init) {
        var i :| 0 <= i < |init| && init[i].host == h && init[i].state == "up";
        assert reports[i] == init[i];
      }
      if exists i :: 0 <= i < |reports| && reports[i].host == h && reports[i].state == "up" {
        var i :| 0 <= i < |reports| && reports[i].host == h && reports[i].state == "up";
        if i < |reports| - 1 { assert init[i] == reports[i]; }
      }
    }
  }

  /** A port is kept exactly when it was reported with the state "open". */
  lemma {:induction false} OpenPortsSpec(reports: seq<Port>, p: Port)
    ensures p in OpenPorts(reports) <==> p in reports && p.state == "open"
    ensures |OpenPorts(reports)| <= |reports|
  {
    if |reports| > 0 {
      var init := reports[..|reports| - 1];
      OpenPortsSpec(init, p);
      assert reports == init + [reports[|reports| - 1]];
    }
  }

  lemma OpenPortsAreOpen(reports: seq<Port>)
    ensures forall k :: 0 <= k < |OpenPorts(reports)| ==> OpenPorts(reports)[k].state == "open"
  {
    forall k | 0 <= k < |OpenPorts(reports)| ensures OpenPorts(reports)[k].state == "open" {
      OpenPortsSpec(reports, OpenPorts(reports)[k]);
    }
  }

  lemma IndexOfIpIsFirst(s: seq<Device>, ip: string, i: nat)
    requires i < |s| && s[i].ip == ip
    requires forall j :: 0 <= j < i ==> s[j].ip != ip
    ensures IndexOfIp(s, ip) == Some(i)
  {
    match IndexOfIp(s, ip)
    case None =>
    case Some(k) =>
  }

  lemma IndexOfIpAbsent(s: seq<Device>, ip: string)
    requires forall j :: 0 <= j < |s| ==> s[j].ip != ip
    ensures IndexOfIp(s, ip) == None
  {
    match IndexOfIp(s, ip)
    case None =>
    case Some(k) =>
  }

  /**
   * How a record is filled: the hostname only when enabled, the MAC only from the
   * ARP map, the vendor only for a known non-empty MAC with lookups asked for,
   * ports only when a port list is given, and always the status "online".
   */
  lemma RecordFields(ip: string, stamp: string, arp: map<string, string>, opts: ScanOptions,
                     vendorReady: bool, env: Environment)
    ensures var d := Record(ip, stamp, arp, opts, vendorReady, env);
      && d.ip == ip && d.lastSeen == stamp && d.status == "online"
      && (d.hostname != "" ==> opts.enableHostname && env.reverseDns(ip) == Some(d.hostname))
      && (ip !in arp ==> d.mac == "" && d.vendor == "")
      && (ip in arp ==> d.mac == arp[ip])
      && (d.vendor != "" ==> opts.enableMacVendor && d.mac != "")
      && (opts.enableMacVendor && d.mac != "" && !vendorReady ==> d.vendor == "Unknown")
      && (opts.ports == "" ==> d.ports == [])
      && (forall k :: 0 <= k < |d.ports| ==> d.ports[k].state == "open")
  {
    if opts.ports != "" {
      match env.portProbe(ip, opts.ports)
      case None =>
      case Some(reports) => OpenPortsAreOpen(reports);
    }
  }

  /** A pass's records are one per processed live host, in order, the k-th stamped `now(k)`. */
  lemma {:induction false} PassRecordsAt(live: seq<string>, n: nat, now: nat -> string, arp: map<string, string>,
                                         opts: ScanOptions, vendorReady: bool, env: Environment)
    requires n <= |live|
    ensures |PassRecords(live, n, now, arp, opts, vendorReady, env)| == n
    ensures forall k :: 0 <= k < n ==>
      PassRecords(live, n, now, arp, opts, vendorReady, env)[k] == Record(live[k], now(k), arp, opts, vendorReady, env)
  {
    if n > 0 {
      PassRecordsAt(live, n - 1, now, arp, opts, vendorReady, env);
    }
  }

  /** Merging the records of one more host is one more upsert. */
  lemma PassStep(inv: seq<Device>, live: seq<string>, n: nat, now: nat -> string, arp: map<string, string>,
                 opts: ScanOptions, vendorReady: bool, env: Environment, before: seq<Device>, after: seq<Device>)
    requires n < |live|
    requires before == MergeAll(inv, PassRecords(live, n, now, arp, opts, vendorReady, env))
    requires after == Upsert(before, Record(live[n], now(n), arp, opts, vendorReady, env))
    ensures after == MergeAll(inv, PassRecords(live, n + 1, now, arp, opts, vendorReady, env))
  {
    MergeAllSnoc(inv, PassRecords(live, n, now, arp, opts, vendorReady, env), Record(live[n], now(n), arp, opts, vendorReady, env));
  }

  /** The IPs of a pass's records are exactly the processed live hosts. */
  lemma PassRecordsIps(live: seq<string>, n: nat, now: nat -> string, arp: map<string, string>,
                       opts: ScanOptions, vendorReady: bool, env: Environment)
    requires n <= |live|
    ensures Ips(PassRecords(live, n, now, arp, opts, vendorReady, env)) == set k | 0 <= k < n :: live[k]
  {
    PassRecordsAt(live, n, now, arp, opts, vendorReady, env);
    var r := PassRecords(live, n, now, arp, opts, vendorReady, env);
    assert forall k :: 0 <= k < n ==> r[k].ip == live[k];
  }

  /**
   * What one pass does to the inventory: it keeps the IPs unique, adds exactly the
   * processed live hosts to the set of IPs, never shrinks or moves an entry, and
   * every entry afterwards is either one of this pass's online records or is the
   * entry that stood at that position before, for a host the pass did not reach.
   */
  lemma ScanPassEffect(inv: seq<Device>, subnet: string, opts: ScanOptions, vendorReady: bool,
                       env: Environment, now: nat -> string, abortAt: Option<nat>)
    requires UniqueIps(inv)
    ensures var r := ScanPass(inv, subnet, opts, vendorReady, env, now, abortAt);
      var live := LiveHosts(env, Target(subnet, env));
      var n := Processed(|live|, abortAt);
      && UniqueIps(r)
      && Ips(r) == Ips(inv) + (set k | 0 <= k < n :: live[k])
      && |r| >= |inv|
      && (forall j :: 0 <= j < |inv| ==> r[j].ip == inv[j].ip)
      && (forall j :: 0 <= j < |r| ==>
            (exists k :: 0 <= k < n && r[j] == Record(live[k], now(k), ArpMap(env), opts, vendorReady, env))
            || (j < |inv| && r[j] == inv[j]))
  {
    var live := LiveHosts(env, Target(subnet, env));
    var n := Processed(|live|, abortAt);
    var ds := PassRecords(live, n, now, ArpMap(env), opts, vendorReady, env);
    MergeAllKeepsUnique(inv, ds);
    MergeAllIps(inv, ds);
    PassRecordsIps(live, n, now, ArpMap(env), opts, vendorReady, env);
    MergeAllKeepsEntries(inv, ds);
    MergeAllOrigin(inv, ds);
    PassRecordsAt(live, n, now, ArpMap(env), opts, vendorReady, env);
    var r := MergeAll(inv, ds);
    forall j | 0 <= j < |r| && r[j] in ds
      ensures exists k :: 0 <= k < n && r[j] == Record(live[k], now(k), ArpMap(env), opts, vendorReady, env)
    {
      var k :| 0 <= k < |ds| && ds[k] == r[j];
    }
  }

  /**
   * A pass that ends early processes a prefix of the live hosts: it merges the
   * records of hosts 0 .. abortAt - 1 and nothing more.
   */
  lemma AbortedPass(inv: seq<Device>, subnet: string, opts: ScanOptions, vendorReady: bool,
                    env: Environment, now: nat -> string, k: nat)
    requires k <= |LiveHosts(env, Target(subnet, env))|
    ensures ScanPass(inv, subnet, opts, vendorReady, env, now, Some(k))
         == MergeAll(inv, PassRecords(LiveHosts(env, Target(subnet, env)), k, now, ArpMap(env), opts, vendorReady, env))
    ensures ScanPass(inv, subnet, opts, vendorReady, env, now, Some(0)) == inv
  {
    var live := LiveHosts(env, Target(subnet, env));
    assert Processed(|live|, Some(k)) == k;
    assert Processed(|live|, Some(0)) == 0;
    var none := PassRecords(live, 0, now, ArpMap(env), opts, vendorReady, env);
    assert none == [];
    assert MergeAll(inv, none) == inv;
  }

  /**
   * Rescanning an unchanged network, to completion, leaves the number of devices
   * and their IPs as the first scan left them, whatever the timestamps.
   */
  lemma RescanIsStable(inv: seq<Device>, subnet: string, opts: ScanOptions, vendorReady: bool,
                       env: Environment, now1: nat -> string, now2: nat -> string)
    ensures var first := ScanPass(inv, subnet, opts, vendorReady, env, now1, None);
      var second := ScanPass(first, subnet, opts, vendorReady, env, now2, None);
      |second| == |first| && Ips(second) == Ips(first)
  {
    var live := LiveHosts(env, Target(subnet, env));
    var ds1 := PassRecords(live, |live|, now1, ArpMap(env), opts, vendorReady, env);
    var ds2 := PassRecords(live, |live|, now2, ArpMap(env), opts, vendorReady, env);
    PassRecordsIps(live, |live|, now1, ArpMap(env), opts, vendorReady, env);
    PassRecordsIps(live, |live|, now2, ArpMap(env), opts, vendorReady, env);
    Remerge(inv, ds1, ds2);
  }

  /**
   * A first scan that finds two distinct hosts up, with no ports asked for, hostname
   * and vendor lookups off and neither host in the ARP map, yields exactly those two
   * devices in discovery order with empty details, online and stamped.
   */
  lemma TwoHostScan(subnet: string, vendorReady: bool, env: Environment, now: nat -> string, a: string, b: string)
    requires a != b
    requires env.sweep(Target(subnet, env)) == Some([HostReport(a, "up"), HostReport(b, "up")])
    requires a !in ArpMap(env) && b !in ArpMap(env)
    ensures var r := ScanPass([], subnet, ScanOptions("", false, false), vendorReady, env, now, None);
      && |r| == 2 && r[0].ip == a && r[1].ip == b
      && (forall j :: 0 <= j < 2 ==>
            r[j].hostname == "" && r[j].mac == "" && r[j].vendor == "" && r[j].ports == []
            && r[j].status == "online" && r[j].lastSeen == now(j))
  {
    TwoUp(a, b);
    var opts := ScanOptions("", false, false);
    var ds := PassRecords([a, b], 2, now, ArpMap(env), opts, vendorReady, env);
    PassRecordsAt([a, b], 2, now, ArpMap(env), opts, vendorReady, env);
    MergeTwoFresh(ds);
  }

  lemma TwoUp(a: string, b: string)
    ensures UpHosts([HostReport(a, "up"), HostReport(b, "up")]) == [a, b]
  {
    var reports := [HostReport(a, "up"), HostReport(b, "up")];
    assert reports[..1][..0] == [];
    assert UpHosts(reports[..1]) == [a];
  }

  /** Two records with different IPs merged into an empty inventory are the inventory, in order. */
  lemma MergeTwoFresh(ds: seq<Device>)
    requires |ds| == 2 && ds[0].ip != ds[1].ip
    ensures MergeAll([], ds) == ds
  {
    var d0, d1 := ds[0], ds[1];
    assert ds[..1] == [d0];
    assert MergeAll([], ds) == Upsert(MergeAll([], [d0]), d1);
    assert [d0][..0] == [];
    assert MergeAll([], [d0]) == Upsert([], d0);
    assert IndexOfIp([], d0.ip) == None;
    assert IndexOfIp([d0], d1.ip) == None by {
      assert [d0][1..] == [];
    }
    assert [d0] + [d1] == ds;
  }
}
