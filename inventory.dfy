/**
 * The device inventory: an ordered list of device records keyed by IP. A scan
 * merges each fresh record into it: a record whose IP is already present
 * replaces that entry in place, any other record is appended. Nothing is ever
 * removed.
 */
module Inventory {
  import opened Wrappers

  /** One probed port: its number, its state and the service name the prober reports. */
  datatype Port = Port(port: int, state: string, service: string)

  /** One discovered device. */
  datatype Device = Device(
    ip: string,
    hostname: string,
    mac: string,
    vendor: string,
    ports: seq<Port>,
    lastSeen: string,
    status: string)

  /** No IP appears twice. */
  ghost predicate UniqueIps(s: seq<Device>) {
    forall i, j :: 0 <= i < j < |s| ==> s[i].ip != s[j].ip
  }

  /** The IPs of a list of devices. */
  ghost function Ips(s: seq<Device>): set<string> {
    set i | 0 <= i < |s| :: s[i].ip
  }

  /** The first position holding `ip`, as `next(i for i, d in enumerate(s) if d['ip'] == ip)`. */
  function IndexOfIp(s: seq<Device>, ip: string): (r: Option<nat>)
    ensures r.Some? ==> r.value < |s| && s[r.value].ip == ip && forall j :: 0 <= j < r.value ==> s[j].ip != ip
    ensures r.None? ==> forall j :: 0 <= j < |s| ==> s[j].ip != ip
  {
    if |s| == 0 then None
    else if s[0].ip == ip then Some(0)
    else match IndexOfIp(s[1..], ip)
      case None => None
      case Some(k) => Some(k + 1)
  }

  /** The merge of one record: overwrite the entry with the same IP in place, or append. */
  function Upsert(s: seq<Device>, d: Device): seq<Device>
  {
    match IndexOfIp(s, d.ip)
    case Some(i) => s[i := d]
    case None => s + [d]
  }

  /** The merge of a sequence of records, in order. */
  function MergeAll(s: seq<Device>, ds: seq<Device>): seq<Device>
  {
    if |ds| == 0 then s else Upsert(MergeAll(s, ds[..|ds| - 1]), ds[|ds| - 1])
  }

  /** Merging one more record is one more upsert. */
  lemma MergeAllSnoc(s: seq<Device>, ds: seq<Device>, d: Device)
    ensures MergeAll(s, ds + [d]) == Upsert(MergeAll(s, ds), d)
  {
    assert (ds + [d])[..|ds|] == ds;
  }

  // ---------------------------------------------------------------------------
  // One merge

  /** The length grows by one when the IP is new and is unchanged when it is present. */
  lemma UpsertLength(s: seq<Device>, d: Device)
    ensures |Upsert(s, d)| == if d.ip in Ips(s) then |s| else |s| + 1
  {
    match IndexOfIp(s, d.ip)
    case Some(i) => assert s[i].ip in Ips(s);
    case None =>
  }

  /** Every entry keeps its IP at its position, and an entry with another IP keeps its value. */
  lemma UpsertKeepsOthers(s: seq<Device>, d: Device)
    ensures |Upsert(s, d)| >= |s|
    ensures forall j :: 0 <= j < |s| ==> Upsert(s, d)[j].ip == s[j].ip
    ensures forall j :: 0 <= j < |s| && s[j].ip != d.ip ==> Upsert(s, d)[j] == s[j]
  {
  }

  /** The IPs after a merge are the IPs before plus the record's. */
  lemma UpsertIps(s: seq<Device>, d: Device)
    ensures Ips(Upsert(s, d)) == Ips(s) + {d.ip}
  {
    var r := Upsert(s, d);
    match IndexOfIp(s, d.ip)
    case Some(i) =>
      assert s[i].ip == d.ip;
      forall x | x in Ips(r) ensures x in Ips(s) + {d.ip} {
        var j :| 0 <= j < |r| && r[j].ip == x;
        if j != i { assert r[j] == s[j]; }
      }
      forall x | x in Ips(s) ensures x in Ips(r) {
        var j :| 0 <= j < |s| && s[j].ip == x;
        assert r[j].ip == x;
      }
    case None =>
      assert r[|s|] == d;
      forall x | x in Ips(r) ensures x in Ips(s) + {d.ip} {
        var j :| 0 <= j < |r| && r[j].ip == x;
        if j < |s| { assert r[j] == s[j]; }
      }
      forall x | x in Ips(s) ensures x in Ips(r) {
        var j :| 0 <= j < |s| && s[j].ip == x;
        assert r[j] == s[j];
      }
  }

  /** A merge introduces no duplicate IP, and the entry for the record's IP is the whole record. */
  lemma UpsertKeepsUnique(s: seq<Device>, d: Device)
    requires UniqueIps(s)
    ensures UniqueIps(Upsert(s, d))
    ensures forall j :: 0 <= j < |Upsert(s, d)| && Upsert(s, d)[j].ip == d.ip ==> Upsert(s, d)[j] == d
  {
    var r := Upsert(s, d);
    match IndexOfIp(s, d.ip)
    case Some(i) =>
      forall j, k | 0 <= j < k < |r| ensures r[j].ip != r[k].ip {
        assert r[j].ip == s[j].ip && r[k].ip == s[k].ip;
      }
    case None =>
      forall j, k | 0 <= j < k < |r| ensures r[j].ip != r[k].ip {
        if k == |s| { assert r[j] == s[j]; }
      }
  }

  // ---------------------------------------------------------------------------
  // A sequence of merges

  /** The IPs of a non-empty list are those of all but its last entry plus the last one's. */
  lemma IpsOfPrefix(ds: seq<Device>)
    requires |ds| > 0
    ensures Ips(ds) == Ips(ds[..|ds| - 1]) + {ds[|ds| - 1].ip}
  {
    var init := ds[..|ds| - 1];
    forall x | x in Ips(ds) ensures x in Ips(init) + {ds[|ds| - 1].ip} {
      var j :| 0 <= j < |ds| && ds[j].ip == x;
      if j < |ds| - 1 { assert init[j] == ds[j]; }
    }
    forall x | x in Ips(init) ensures x in Ips(ds) {
      var j :| 0 <= j < |init| && init[j].ip == x;
      assert ds[j] == init[j];
    }
  }

  /** Merging keeps the IPs unique. */
  lemma {:induction false} MergeAllKeepsUnique(s: seq<Device>, ds: seq<Device>)
    requires UniqueIps(s)
    ensures UniqueIps(MergeAll(s, ds))
  {
    if |ds| > 0 {
      MergeAllKeepsUnique(s, ds[..|ds| - 1]);
      UpsertKeepsUnique(MergeAll(s, ds[..|ds| - 1]), ds[|ds| - 1]);
    }
  }

  /** The IPs after merging are the IPs before plus those of the records. */
  lemma {:induction false} MergeAllIps(s: seq<Device>, ds: seq<Device>)
    ensures Ips(MergeAll(s, ds)) == Ips(s) + Ips(ds)
  {
    if |ds| > 0 {
      var init := ds[..|ds| - 1];
      MergeAllIps(s, init);
      UpsertIps(MergeAll(s, init), ds[|ds| - 1]);
      IpsOfPrefix(ds);
    }
  }

  /**
   * The inventory never shrinks, every entry keeps its IP at its position, and an
   * entry whose IP no record carries keeps its value.
   */
  lemma {:induction false} MergeAllKeepsEntries(s: seq<Device>, ds: seq<Device>)
    ensures |MergeAll(s, ds)| >= |s|
    ensures forall j :: 0 <= j < |s| ==> MergeAll(s, ds)[j].ip == s[j].ip
    ensures forall j :: 0 <= j < |s| && s[j].ip !in Ips(ds) ==> MergeAll(s, ds)[j] == s[j]
  {
    if |ds| > 0 {
      var init := ds[..|ds| - 1];
      var last := ds[|ds| - 1];
      MergeAllKeepsEntries(s, init);
      UpsertKeepsOthers(MergeAll(s, init), last);
      IpsOfPrefix(ds);
    }
  }

  /**
   * Every entry after merging is one of the records, or is the entry that stood
   * at the same position before and whose IP no record carries.
   */
  lemma {:induction false} MergeAllOrigin(s: seq<Device>, ds: seq<Device>)
    requires UniqueIps(s)
    ensures forall j :: 0 <= j < |MergeAll(s, ds)| ==>
      MergeAll(s, ds)[j] in ds || (j < |s| && MergeAll(s, ds)[j] == s[j] && s[j].ip !in Ips(ds))
  {
    if |ds| > 0 {
      var init := ds[..|ds| - 1];
      var last := ds[|ds| - 1];
      var before := MergeAll(s, init);
      MergeAllOrigin(s, init);
      MergeAllKeepsUnique(s, init);
      IpsOfPrefix(ds);
      var r := Upsert(before, last);
      forall j | 0 <= j < |r| ensures r[j] in ds || (j < |s| && r[j] == s[j] && s[j].ip !in Ips(ds)) {
        if r[j] == last {
        } else {
          assert j < |before| && r[j] == before[j] && before[j].ip != last.ip by {
            match IndexOfIp(before, last.ip)
            case Some(i) =>
            case None =>
          }
          if before[j] in init {
            var k :| 0 <= k < |init| && init[k] == before[j];
            assert ds[k] == init[k];
          }
        }
      }
    }
  }

  /** When every record's IP is already present, the length does not change. */
  lemma {:induction false} MergeAllKnownIps(s: seq<Device>, ds: seq<Device>)
    requires Ips(ds) <= Ips(s)
    ensures |MergeAll(s, ds)| == |s|
  {
    if |ds| > 0 {
      var init := ds[..|ds| - 1];
      var last := ds[|ds| - 1];
      IpsOfPrefix(ds);
      MergeAllKnownIps(s, init);
      MergeAllIps(s, init);
      assert last.ip in Ips(ds);
      UpsertLength(MergeAll(s, init), last);
    }
  }

  /**
   * Last write wins: for a record that no later record overrides, the inventory's
   * entry for its IP is exactly that record.
   */
  lemma {:induction false} MergeAllLastWins(s: seq<Device>, ds: seq<Device>, k: nat)
    requires UniqueIps(s)
    requires k < |ds|
    requires forall k' :: k < k' < |ds| ==> ds[k'].ip != ds[k].ip
    ensures ds[k] in MergeAll(s, ds)
    ensures forall j :: 0 <= j < |MergeAll(s, ds)| && MergeAll(s, ds)[j].ip == ds[k].ip ==> MergeAll(s, ds)[j] == ds[k]
  {
    var init := ds[..|ds| - 1];
    var last := ds[|ds| - 1];
    var before := MergeAll(s, init);
    MergeAllKeepsUnique(s, init);
    UpsertKeepsUnique(before, last);
    if k == |ds| - 1 {
      match IndexOfIp(before, last.ip)
      case Some(i) => assert Upsert(before, last)[i] == last;
      case None => assert Upsert(before, last)[|before|] == last;
    } else {
      assert forall k' :: k < k' < |init| ==> init[k'] == ds[k'];
      MergeAllLastWins(s, init, k);
      assert init[k] == ds[k];
      UpsertKeepsOthers(before, last);
      var i :| 0 <= i < |before| && before[i] == ds[k];
      assert Upsert(before, last)[i] == ds[k];
    }
  }

  /**
   * Merging the same set of IPs again, as a repeated scan of an unchanged network
   * does, leaves the size and the set of IPs as they were.
   */
  lemma Remerge(s: seq<Device>, ds1: seq<Device>, ds2: seq<Device>)
    requires Ips(ds2) <= Ips(ds1)
    ensures |MergeAll(MergeAll(s, ds1), ds2)| == |MergeAll(s, ds1)|
    ensures Ips(MergeAll(MergeAll(s, ds1), ds2)) == Ips(MergeAll(s, ds1))
  {
    MergeAllIps(s, ds1);
    MergeAllIps(MergeAll(s, ds1), ds2);
    MergeAllKnownIps(MergeAll(s, ds1), ds2);
  }
}
