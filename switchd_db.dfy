// The forwarding database and host status of the switch daemon's SwitchDB
// (lib/auxiliary/switchd/switchdb.py): for each mac the owner looked up in
// the testbed description and the switch ports it was last seen on, with the
// link flag and the time of the sighting; the test of a port against the
// links of the topology; the removal of stale sightings; the lookup of a
// mac's ports; and the last status reported per host. The owner lookup
// (fromMacGetId) and the clock are inputs.

module SwitchdDb {
  import opened Common

  /** A place a mac was seen: a switch and one of its ports. */
  type Location = (string, string)

  /** What fromMacGetId finds for a mac: the node and the interface id, which may be None. */
  datatype MacOwner = MacOwner(node: string, iface: Option<string>)

  /** A sighting: whether the port is on a link of the topology, and when. */
  datatype Sighting = Sighting(link: bool, time: int)

  /** The value of a mac in the fdb: its owner, or None, and its sightings. */
  datatype FdbRecord = FdbRecord(owner: Option<MacOwner>, locations: map<Location, Sighting>)

  type Fdb = map<string, FdbRecord>

  /** A link of the topology: its type ("external", "direct", ...) and its member ports. */
  datatype Link = Link(kind: string, members: seq<Location>)

  /** The records writeFdbEntry and cleanFdb leave behind are never empty. */
  ghost predicate NoEmptyRecords(fdb: Fdb)
  {
    forall mac :: mac in fdb ==> fdb[mac].locations != map[]
  }

  // ---------------------------------------------------------------------
  // Links

  /** Some member of some link is the port. */
  ghost predicate OnLink(links: seq<Link>, loc: Location)
  {
    exists i, j :: 0 <= i < |links| && 0 <= j < |links[i].members| && links[i].members[j] == loc
  }

  /** isLink: whether the port is a member of a link. */
  method IsLink(links: seq<Link>, loc: Location) returns (r: bool)
    ensures r <==> OnLink(links, loc)
  {
    for i := 0 to |links|
      invariant !exists i', j :: 0 <= i' < i && 0 <= j < |links[i'].members| && links[i'].members[j] == loc
    {
      for j := 0 to |links[i].members|
        invariant forall j' :: 0 <= j' < j ==> links[i].members[j'] != loc
      {
        if links[i].members[j] == loc {
          return true;
        }
      }
    }
    return false;
  }

  /** The first member of the first external link that has members, the only one isExternal looks at. */
  function FirstExternal(links: seq<Link>): (r: Option<Location>)
    ensures r.None? <==> forall i :: 0 <= i < |links| ==> links[i].kind != "external" || links[i].members == []
    ensures r.Some? ==> exists i :: (0 <= i < |links| && links[i].kind == "external" && links[i].members != [] &&
      r.value == links[i].members[0] &&
      forall k :: 0 <= k < i ==> links[k].kind != "external" || links[k].members == [])
    decreases |links|
  {
    if |links| == 0 then None
    else if links[0].kind == "external" && links[0].members != [] then Some(links[0].members[0])
    else
      var r := FirstExternal(links[1..]);
      assert forall i :: 0 < i < |links| ==> links[i] == links[1..][i - 1];
      if r.Some? then
        ghost var i :| 0 <= i < |links[1..]| && links[1..][i].kind == "external" && links[1..][i].members != [] &&
          r.value == links[1..][i].members[0] &&
          forall k :: 0 <= k < i ==> links[1..][k].kind != "external" || links[1..][k].members == [];
        assert links[i + 1] == links[1..][i];
        r
      else r
  }

  /**
   * isExternal: the loop returns after the first member of the first
   * external link with members, true when that member is the port; with no
   * such link it falls off the end and gives None.
   */
  method IsExternal(links: seq<Link>, loc: Location) returns (r: Option<bool>)
    ensures r == match FirstExternal(links) case None => None case Some(m) => Some(m == loc)
  {
    for i := 0 to |links|
      invariant FirstExternal(links[i..]) == FirstExternal(links)
    {
      assert links[i..][1..] == links[i + 1..];
      if links[i].kind != "external" {
        continue;
      }
      for j := 0 to |links[i].members|
        invariant j == 0
      {
        if links[i].members[j] == loc {
          return Some(true);
        }
        return Some(false);
      }
    }
    return None;
  }

  // ---------------------------------------------------------------------
  // writeFdbEntry

  /**
   * The fdb after a sighting of mac at loc: the mac gets a record (owner
   * from the lookup) if it had none, the old sighting at loc goes, a new
   * one is stored unless the port is external, and a record left empty is
   * removed.
   */
  function WriteEntry(fdb: Fdb, mac: string, loc: Location, time: int, owner: Option<MacOwner>,
                      external: bool, link: bool): Fdb
  {
    var rec := if mac in fdb then fdb[mac] else FdbRecord(owner, map[]);
    var locs := if external then rec.locations - {loc} else rec.locations[loc := Sighting(link, time)];
    if locs == map[] then fdb - {mac} else fdb[mac := rec.(locations := locs)]
  }

  /**
   * A sighting on a port that is not external is stored with its link flag
   * and time; on an external port any old sighting there is dropped; the
   * other sightings of the mac, its owner and all other macs stay; the mac
   * is never left with no sightings.
   */
  lemma WriteEntryMeaning(fdb: Fdb, mac: string, loc: Location, time: int, owner: Option<MacOwner>,
                          external: bool, link: bool)
    ensures var r := WriteEntry(fdb, mac, loc, time, owner, external, link);
      (!external ==> mac in r && loc in r[mac].locations && r[mac].locations[loc] == Sighting(link, time)) &&
      (external && mac in r ==> loc !in r[mac].locations) &&
      (mac in r ==> (r[mac].locations != map[] &&
        r[mac].owner == (if mac in fdb then fdb[mac].owner else owner) &&
        forall l :: l != loc ==>
          (l in r[mac].locations <==> mac in fdb && l in fdb[mac].locations) &&
          (l in r[mac].locations ==> r[mac].locations[l] == fdb[mac].locations[l]))) &&
      (mac !in r ==> external && (mac !in fdb || fdb[mac].locations.Keys <= {loc})) &&
      (forall m :: m != mac ==> (m in r <==> m in fdb) && (m in r ==> r[m] == fdb[m]))
  {
    var rec := if mac in fdb then fdb[mac] else FdbRecord(owner, map[]);
    if external {
      var locs := rec.locations - {loc};
      assert locs.Keys == rec.locations.Keys - {loc};
      if locs == map[] {
        assert locs.Keys == {};
      }
    } else {
      assert loc in rec.locations[loc := Sighting(link, time)];
    }
  }

  /** writeFdbEntry keeps every record non-empty. */
  lemma WriteEntryNoEmpty(fdb: Fdb, mac: string, loc: Location, time: int, owner: Option<MacOwner>,
                          external: bool, link: bool)
    requires NoEmptyRecords(fdb)
    ensures NoEmptyRecords(WriteEntry(fdb, mac, loc, time, owner, external, link))
  {
    WriteEntryMeaning(fdb, mac, loc, time, owner, external, link);
  }

  // ---------------------------------------------------------------------
  // cleanFdb

  /** The sightings at or after oldTime. */
  function Fresh(locs: map<Location, Sighting>, oldTime: int): map<Location, Sighting>
  {
    map l | l in locs && !(locs[l].time < oldTime) :: locs[l]
  }

  /** cleanFdb only looks at macs whose owner was found with an interface id. */
  predicate Cleanable(rec: FdbRecord)
  {
    rec.owner.Some? && rec.owner.value.iface.Some?
  }

  function CleanRecord(rec: FdbRecord, oldTime: int): FdbRecord
  {
    if Cleanable(rec) then rec.(locations := Fresh(rec.locations, oldTime)) else rec
  }

  /** Whether a record survives the clean-up: it is not looked at, or keeps a sighting. */
  predicate Survives(rec: FdbRecord, oldTime: int)
  {
    !Cleanable(rec) || Fresh(rec.locations, oldTime) != map[]
  }

  /** The fdb after cleanFdb with the given cut-off. */
  function CleanedFdb(fdb: Fdb, oldTime: int): Fdb
  {
    map mac | mac in fdb && Survives(fdb[mac], oldTime) :: CleanRecord(fdb[mac], oldTime)
  }

  /**
   * cleanFdb never drops a sighting at or after the cut-off, drops every
   * earlier one of the macs it looks at, never touches a mac whose owner or
   * interface id is unknown, and keeps every record non-empty.
   */
  lemma CleanedFdbMeaning(fdb: Fdb, oldTime: int)
    ensures var r := CleanedFdb(fdb, oldTime);
      (forall mac, l :: mac in fdb && l in fdb[mac].locations && !(fdb[mac].locations[l].time < oldTime) ==>
        mac in r && l in r[mac].locations && r[mac].locations[l] == fdb[mac].locations[l]) &&
      (forall mac, l :: mac in r && l in r[mac].locations ==>
        mac in fdb && l in fdb[mac].locations && r[mac].locations[l] == fdb[mac].locations[l]) &&
      (forall mac :: mac in r ==> r[mac].owner == fdb[mac].owner) &&
      (forall mac :: mac in fdb && !Cleanable(fdb[mac]) ==> mac in r && r[mac] == fdb[mac]) &&
      (forall mac, l :: mac in r && Cleanable(r[mac]) && l in r[mac].locations ==>
        !(r[mac].locations[l].time < oldTime))
  {
    forall mac, l | mac in fdb && l in fdb[mac].locations && !(fdb[mac].locations[l].time < oldTime)
      ensures Survives(fdb[mac], oldTime)
    {
      assert l in Fresh(fdb[mac].locations, oldTime);
    }
  }

  /** ... and of non-empty records. */
  lemma CleanedFdbNoEmpty(fdb: Fdb, oldTime: int)
    requires NoEmptyRecords(fdb)
    ensures NoEmptyRecords(CleanedFdb(fdb, oldTime))
  {
  }

  /** The loop over one mac's sightings: those before oldTime are deleted. */
  method DropStale(locs: map<Location, Sighting>, oldTime: int) returns (r: map<Location, Sighting>)
    ensures r == Fresh(locs, oldTime)
  {
    r := locs;
    var keys := locs.Keys;
    while keys != {}
      invariant keys <= locs.Keys
      invariant r == map l | l in locs && (l in keys || !(locs[l].time < oldTime)) :: locs[l]
      decreases keys
    {
      var l :| l in keys;
      if r[l].time < oldTime {
        r := r - {l};
      }
      keys := keys - {l};
    }
  }

  // ---------------------------------------------------------------------
  // locateMac

  /** The sightings of a record on ports that are not on a link. */
  ghost function NonLink(locs: map<Location, Sighting>): set<Location>
  {
    set l | l in locs && !locs[l].link
  }

  predicate Distinct(s: seq<Location>)
  {
    forall i, j :: 0 <= i < j < |s| ==> s[i] != s[j]
  }

  /**
   * locateMac: the mac upper-cased; for an unknown mac None; otherwise
   * every port it was seen on, or, when unique is asked for, the one port
   * not on a link if there is exactly one, else None.
   */
  method LocateMac(fdb: Fdb, m: string, unique: bool) returns (r: Option<seq<Location>>)
    ensures Upper(m) !in fdb ==> r.None?
    ensures Upper(m) in fdb && !unique ==>
      r.Some? && Distinct(r.value) && forall l :: l in r.value <==> l in fdb[Upper(m)].locations
    ensures Upper(m) in fdb && unique ==>
      (r.Some? <==> exists l :: NonLink(fdb[Upper(m)].locations) == {l}) &&
      (r.Some? ==> |r.value| == 1 && NonLink(fdb[Upper(m)].locations) == {r.value[0]})
  {
    var mac := Upper(m);
    if mac !in fdb {
      return None;
    }
    var locs := fdb[mac].locations;
    var res: seq<Location> := [];
    var keys := locs.Keys;
    while keys != {}
      invariant keys <= locs.Keys
      invariant Distinct(res)
      invariant forall l :: l in res ==> l !in keys
      invariant forall l :: l in res <==> l in locs && l !in keys && (unique ==> !locs[l].link)
      decreases keys
    {
      var l :| l in keys;
      if !unique || !locs[l].link {
        res := res + [l];
      }
      keys := keys - {l};
    }
    if !unique {
      return Some(res);
    }
    assert forall l :: l in res <==> l in NonLink(locs);
    if |res| == 1 {
      assert NonLink(locs) == {res[0]};
      return Some(res);
    }
    NoSingleton(res, NonLink(locs));
    return None;
  }

  /** A set listed by a sequence without repeats that is not one element long has no single member. */
  lemma NoSingleton(res: seq<Location>, s: set<Location>)
    requires Distinct(res) && |res| != 1
    requires forall l :: l in res <==> l in s
    ensures forall l :: s != {l}
  {
    forall l
      ensures s != {l}
    {
      if |res| == 0 {
        assert l !in s;
      } else if res[0] == l {
        assert res[1] in s && res[1] != l;
      } else {
        assert res[0] in s;
      }
    }
  }

  // ---------------------------------------------------------------------
  // Host status

  /** getHostStatus: the status last set for the node, or -1. */
  function HostStatus(statuses: map<string, int>, nodeid: string): int
  {
    if nodeid in statuses then statuses[nodeid] else -1
  }

  /** A node never set has status -1; after setHostStatus it has the status set and others keep theirs. */
  lemma HostStatusMeaning(statuses: map<string, int>, nodeid: string, status: int)
    ensures nodeid !in statuses ==> HostStatus(statuses, nodeid) == -1
    ensures HostStatus(statuses[nodeid := status], nodeid) == status
    ensures forall n :: n != nodeid ==> HostStatus(statuses[nodeid := status], n) == HostStatus(statuses, n)
  {
  }

  /** The dictionary updates of writeFdbEntry, once the port is known to be external or not. */
  method StoreSighting(fdb: Fdb, mac: string, loc: Location, time: int, owner: Option<MacOwner>,
                       external: bool, link: bool) returns (f: Fdb)
    ensures f == WriteEntry(fdb, mac, loc, time, owner, external, link)
  {
    f := fdb;
    if mac !in f {
      f := f[mac := FdbRecord(owner, map[])];
    }
    ghost var rec := f[mac];
    if loc in f[mac].locations {
      f := f[mac := f[mac].(locations := f[mac].locations - {loc})];
    }
    assert f[mac].locations == rec.locations - {loc};
    if !external {
      f := f[mac := f[mac].(locations := f[mac].locations[loc := Sighting(link, time)])];
      assert f[mac].locations == rec.locations[loc := Sighting(link, time)];
    }
    if f[mac].locations == map[] {
      f := f - {mac};
    }
  }

  /** The forwarding database, the links and the host statuses of SwitchDB. */
  class SwitchDB {
    var fdb: Fdb
    var links: seq<Link>
    var hostStatus: map<string, int>

    constructor ()
      ensures fdb == map[] && links == [] && hostStatus == map[]
    {
      fdb := map[];
      links := [];
      hostStatus := map[];
    }

    /** setHostStatus */
    method SetHostStatus(nodeid: string, status: int)
      modifies this
      ensures hostStatus == old(hostStatus)[nodeid := status]
      ensures fdb == old(fdb) && links == old(links)
    {
      hostStatus := hostStatus[nodeid := status];
    }

    /**
     * writeFdbEntry: a sighting of mac on the port of nodeid at time;
     * owner is what fromMacGetId finds for the mac.
     */
    method WriteFdbEntry(nodeid: string, mac: string, port: string, time: int, owner: Option<MacOwner>)
      modifies this
      ensures var ext := FirstExternal(links);
        fdb == WriteEntry(old(fdb), mac, (nodeid, port), time, owner,
                          ext.Some? && ext.value == (nodeid, port), OnLink(links, (nodeid, port)))
      ensures links == old(links) && hostStatus == old(hostStatus)
    {
      var loc := (nodeid, port);
      var external := IsExternal(links, loc);
      var link := false;
      if external != Some(true) {
        link := IsLink(links, loc);
      }
      fdb := StoreSighting(fdb, mac, loc, time, owner, external == Some(true), link);

    }

    /** cleanFdb: drop the sightings older than timeout seconds before now, and the records left empty. */
    method CleanFdb(now: int, timeout: int)
      modifies this
      ensures fdb == CleanedFdb(old(fdb), now - timeout)
      ensures links == old(links) && hostStatus == old(hostStatus)
    {
      var oldTime := now - timeout;
      var keys := fdb.Keys;
      ghost var done: set<string> := {};
      ghost var f0 := fdb;
      while keys != {}
        invariant keys + done == f0.Keys && keys !! done
        invariant fdb == map mac | mac in f0 && (mac in keys || Survives(f0[mac], oldTime)) ::
          if mac in keys then f0[mac] else CleanRecord(f0[mac], oldTime)
        invariant links == old(links) && hostStatus == old(hostStatus)
        decreases keys
      {
        var mac :| mac in keys;
        var rec := fdb[mac];
        if rec.owner.Some? && rec.owner.value.iface.Some? {
          var locs := DropStale(rec.locations, oldTime);
          if locs == map[] {
            fdb := fdb - {mac};
          } else {
            fdb := fdb[mac := rec.(locations := locs)];
          }
        }
        keys := keys - {mac};
        done := done + {mac};
      }
    }
  }
}
