// The forwarding-database records of lib/auxiliary/switchdb.py: a port
// sighting (FDB_Port), the sightings of a mac on one switch (FDB_Location),
// the entry of a mac with its locations per switch (FDB_Entry), the trunk
// test of a switch port, and findUniqueMACs, which picks for each mac a port
// that is not a trunk. The testbed description and the clock are inputs.

module SwitchDb {
  import opened Common

  /** FDB_Port: a port name, the time of the last sighting there, and the trunk flag. */
  datatype FdbPort = FdbPort(port: string, time: int, trunk: bool)

  /** The index of the first entry for the port: the one getPort returns and updatePort updates. */
  function FirstPort(ports: seq<FdbPort>, port: string): (r: Option<nat>)
    ensures r.Some? ==> (r.value < |ports| && ports[r.value].port == port &&
      forall k :: 0 <= k < r.value ==> ports[k].port != port)
    ensures r.None? ==> forall k :: 0 <= k < |ports| ==> ports[k].port != port
    decreases |ports|
  {
    if |ports| == 0 then None
    else if ports[0].port == port then Some(0)
    else
      assert forall k :: 0 < k < |ports| ==> ports[k] == ports[1..][k - 1];
      match FirstPort(ports[1..], port)
      case None => None
      case Some(k) => Some(k + 1)
  }

  /** The ports after updatePort(port, time): the first entry for the port gets the time, or a new entry is appended. */
  function UpdatedPorts(ports: seq<FdbPort>, port: string, time: int): seq<FdbPort>
  {
    match FirstPort(ports, port)
    case Some(k) => ports[k := ports[k].(time := time)]
    case None => ports + [FdbPort(port, time, false)]
  }

  /**
   * After the update the port is found with the new time; it gained an
   * entry only if it had none, so no duplicate appears; the entries of the
   * other ports stay as they were.
   */
  lemma UpdatedPortsMeaning(ports: seq<FdbPort>, port: string, time: int)
    ensures var r := UpdatedPorts(ports, port, time);
      FirstPort(r, port).Some? && r[FirstPort(r, port).value].time == time &&
      |r| == |ports| + (if FirstPort(ports, port).None? then 1 else 0) &&
      (forall i :: 0 <= i < |r| && r[i].port == port ==>
        (i < |ports| && ports[i].port == port) || (i == |ports| && FirstPort(ports, port).None?)) &&
      (forall i :: 0 <= i < |ports| && ports[i].port != port ==> r[i] == ports[i])
  {
    var r := UpdatedPorts(ports, port, time);
    match FirstPort(ports, port)
    case Some(k) =>
      assert forall i :: 0 <= i < k ==> r[i] == ports[i];
      assert r[k].port == port;
      var f := FirstPort(r, port);
      assert f.Some?;
      assert !(f.value < k) && !(k < f.value);
    case None =>
      assert r[|ports|].port == port;
  }

  /** The ports after setTrunk(port): every entry for the port becomes a trunk. */
  function Trunked(ports: seq<FdbPort>, port: string): (r: seq<FdbPort>)
    ensures |r| == |ports|
  {
    seq(|ports|, i requires 0 <= i < |ports| => if ports[i].port == port then ports[i].(trunk := true) else ports[i])
  }

  /** Every entry for the port is a trunk afterwards, keeping its name and time; the others stay; a second call changes nothing. */
  lemma TrunkedMeaning(ports: seq<FdbPort>, port: string)
    ensures var r := Trunked(ports, port);
      (forall i :: 0 <= i < |r| ==> r[i].port == ports[i].port && r[i].time == ports[i].time) &&
      (forall i :: 0 <= i < |r| && r[i].port == port ==> r[i].trunk) &&
      (forall i :: 0 <= i < |r| && r[i].port != port ==> r[i] == ports[i]) &&
      Trunked(r, port) == r
  {
  }

  /** FDB_Location: the sightings of a mac on one switch. */
  class FdbLocation {
    var switchId: string
    var ports: seq<FdbPort>

    constructor (switchId: string, port: string, time: int)
      ensures this.switchId == switchId && ports == [FdbPort(port, time, false)]
    {
      this.switchId := switchId;
      ports := [FdbPort(port, time, false)];
    }

    /** setTrunk: mark every entry for the port as a trunk. */
    method SetTrunk(port: string)
      modifies this
      ensures ports == Trunked(old(ports), port) && switchId == old(switchId)
    {
      var i := 0;
      while i < |ports|
        invariant 0 <= i <= |ports| == |old(ports)|
        invariant ports[..i] == Trunked(old(ports), port)[..i] && ports[i..] == old(ports)[i..]
        invariant switchId == old(switchId)
      {
        if ports[i].port == port {
          ports := ports[i := ports[i].(trunk := true)];
        }
        i := i + 1;
      }
    }

    /** updatePort: the first entry for the port gets the time and the loop returns; with none, an entry is appended. */
    method UpdatePort(port: string, time: int)
      modifies this
      ensures ports == UpdatedPorts(old(ports), port, time) && switchId == old(switchId)
    {
      for i := 0 to |ports|
        invariant ports == old(ports)
        invariant forall k :: 0 <= k < i ==> ports[k].port != port
      {
        if ports[i].port == port {
          ports := ports[i := ports[i].(time := time)];
          return;
        }
      }
      ports := ports + [FdbPort(port, time, false)];
    }

    /** getPort(port): the first entry for the port, or None. */
    method GetPort(port: string) returns (r: Option<FdbPort>)
      ensures r == match FirstPort(ports, port) case None => None case Some(k) => Some(ports[k])
    {
      for i := 0 to |ports|
        invariant forall k :: 0 <= k < i ==> ports[k].port != port
      {
        if ports[i].port == port {
          return Some(ports[i]);
        }
      }
      return None;
    }

    /** addPort: append an entry, whether or not the port has one. */
    method AddPort(port: string, time: int)
      modifies this
      ensures ports == old(ports) + [FdbPort(port, time, false)] && switchId == old(switchId)
    {
      ports := ports + [FdbPort(port, time, false)];
    }
  }

  /** FDB_Entry: a mac, the device and interface it belongs to, and its locations per switch. */
  class FdbEntry {
    var mac: string
    var deviceId: Option<string>
    var interfaceId: Option<string>
    var location: map<string, FdbLocation>

    /** No two switches share a location object. */
    ghost predicate Valid()
      reads this
    {
      forall a, b :: a in location && b in location && a != b ==> location[a] != location[b]
    }

    /** The mac is stored upper-cased; a first location is recorded only when switch, port and time are all given. */
    constructor (mac: string, switchId: Option<string>, port: Option<string>, time: Option<int>)
      ensures Valid()
      ensures this.mac == Upper(mac) && deviceId == None && interfaceId == None
      ensures switchId.Some? && port.Some? && time.Some? ==>
        location.Keys == {switchId.value} && location[switchId.value].switchId == switchId.value &&
        location[switchId.value].ports == [FdbPort(port.value, time.value, false)]
      ensures !(switchId.Some? && port.Some? && time.Some?) ==> location == map[]
    {
      this.mac := Upper(mac);
      deviceId := None;
      interfaceId := None;
      if switchId.Some? && port.Some? && time.Some? {
        var l := new FdbLocation(switchId.value, port.value, time.value);
        location := map[switchId.value := l];
      } else {
        location := map[];
      }
    }

    /**
     * updateLocation: a new location for an unknown switch; otherwise the
     * switch's location gets a new entry for an unknown port or the new
     * time on the port's entry.
     */
    method UpdateLocation(switchId: string, port: string, time: int)
      requires Valid()
      modifies this, location.Values
      ensures Valid()
      ensures location.Keys == old(location.Keys) + {switchId}
      ensures switchId in old(location) ==>
        location[switchId] == old(location[switchId]) &&
        location[switchId].ports == UpdatedPorts(old(location[switchId].ports), port, time)
      ensures switchId !in old(location) ==>
        location[switchId].ports == [FdbPort(port, time, false)] && location[switchId].switchId == switchId
      ensures forall s :: s in old(location) && s != switchId ==>
        location[s] == old(location[s]) && location[s].ports == old(location[s].ports)
      ensures forall s :: s in old(location) ==> location[s].switchId == old(location[s].switchId)
      ensures mac == old(mac) && deviceId == old(deviceId) && interfaceId == old(interfaceId)
    {
      if switchId !in location {
        var l := new FdbLocation(switchId, port, time);
        location := location[switchId := l];
      } else {
        var l := location[switchId];
        var found := l.GetPort(port);
        if found.None? {
          l.AddPort(port, time);
        } else {
          l.UpdatePort(port, time);
        }
      }
    }

    /** setTrunk: mark the port on the switch's location as a trunk; false is the KeyError of an unknown switch. */
    method SetTrunk(switchId: string, port: string) returns (ok: bool)
      requires Valid()
      modifies location.Values
      ensures ok <==> switchId in location
      ensures ok ==> location[switchId].ports == Trunked(old(location[switchId].ports), port)
      ensures forall s :: s in location && s != switchId ==> location[s].ports == old(location[s].ports)
      ensures forall s :: s in location ==> location[s].switchId == old(location[s].switchId)
    {
      if switchId !in location {
        return false;
      }
      location[switchId].SetTrunk(port);
      return true;
    }

    /**
     * setLocation: a new location for an unknown switch; for a known one it
     * calls setPort, which FDB_Location lacks, so it raises AttributeError
     * (false here) and changes nothing.
     */
    method SetLocation(switchId: string, port: string, time: int) returns (ok: bool)
      requires Valid()
      modifies this
      ensures Valid()
      ensures ok <==> switchId !in old(location)
      ensures ok ==> (switchId in location && location == old(location)[switchId := location[switchId]] &&
        fresh(location[switchId]) && location[switchId].ports == [FdbPort(port, time, false)] &&
        location[switchId].switchId == switchId)
      ensures !ok ==> location == old(location)
      ensures mac == old(mac) && deviceId == old(deviceId) && interfaceId == old(interfaceId)
    {
      if switchId in location {
        return false;
      }
      var l := new FdbLocation(switchId, port, time);
      location := location[switchId := l];
      return true;
    }
  }

  // ---------------------------------------------------------------------
  // isTrunk

  /** A port of a switch's port table (Switch_Port). */
  datatype SwitchPort = SwitchPort(switchId: string, port: string, trunk: bool)

  /** The first port of the tables, in visiting order, naming the switch and port. */
  function FirstSwitchPort(ports: seq<SwitchPort>, switchId: string, port: string): (r: Option<SwitchPort>)
    ensures r.None? <==> forall k :: 0 <= k < |ports| ==> !(ports[k].switchId == switchId && ports[k].port == port)
    ensures r.Some? ==> r.value in ports && r.value.switchId == switchId && r.value.port == port
    decreases |ports|
  {
    if |ports| == 0 then None
    else if ports[0].switchId == switchId && ports[0].port == port then Some(ports[0])
    else
      assert forall k :: 0 < k < |ports| ==> ports[k] == ports[1..][k - 1];
      FirstSwitchPort(ports[1..], switchId, port)
  }

  /**
   * isTrunk over the ports of all switch tables in visiting order: the trunk
   * flag of the first one naming the switch and port, false when none does.
   */
  method IsTrunk(ports: seq<SwitchPort>, switchId: string, port: string) returns (r: bool)
    ensures r == match FirstSwitchPort(ports, switchId, port) case None => false case Some(p) => p.trunk
  {
    for i := 0 to |ports|
      invariant FirstSwitchPort(ports[i..], switchId, port) == FirstSwitchPort(ports, switchId, port)
    {
      assert ports[i..][1..] == ports[i + 1..];
      if ports[i].switchId == switchId && ports[i].port == port {
        return ports[i].trunk;
      }
    }
    return false;
  }

  // ---------------------------------------------------------------------
  // findUniqueMACs

  /** A location as findUniqueMACs sees it: the switch id and the port entries. */
  datatype LocationView = LocationView(switchId: string, ports: seq<FdbPort>)

  /** The last port of the list that is not a trunk. */
  function LastFreeIn(ports: seq<FdbPort>): (r: Option<string>)
    ensures r.None? <==> forall j :: 0 <= j < |ports| ==> ports[j].trunk
    ensures r.Some? ==> exists j :: 0 <= j < |ports| && !ports[j].trunk && ports[j].port == r.value
    decreases |ports|
  {
    if |ports| == 0 then None
    else if !ports[|ports| - 1].trunk then Some(ports[|ports| - 1].port)
    else
      assert forall j :: 0 <= j < |ports| - 1 ==> ports[j] == ports[..|ports| - 1][j];
      LastFreeIn(ports[..|ports| - 1])
  }

  /** The last (switch, port) not a trunk, over the locations and their ports in visiting order. */
  function LastFree(locs: seq<LocationView>): (r: Option<(string, string)>)
    ensures r.None? <==> forall i, j :: 0 <= i < |locs| && 0 <= j < |locs[i].ports| ==> locs[i].ports[j].trunk
    ensures r.Some? ==> exists i, j :: (0 <= i < |locs| && 0 <= j < |locs[i].ports| && !locs[i].ports[j].trunk &&
      r.value == (locs[i].switchId, locs[i].ports[j].port))
    decreases |locs|
  {
    if |locs| == 0 then None
    else
      var last := locs[|locs| - 1];
      assert forall i :: 0 <= i < |locs| - 1 ==> locs[i] == locs[..|locs| - 1][i];
      match LastFreeIn(last.ports)
      case Some(p) => Some((last.switchId, p))
      case None => LastFree(locs[..|locs| - 1])
  }

  /** The loops over one mac's locations and ports: the last port visited that is not a trunk. */
  method ScanLocations(locs: seq<LocationView>) returns (r: Option<(string, string)>)
    ensures r == LastFree(locs)
  {
    r := None;
    for i := 0 to |locs|
      invariant r == LastFree(locs[..i])
    {
      var ports := locs[i].ports;
      ghost var before := r;
      for j := 0 to |ports|
        invariant r == match LastFreeIn(ports[..j]) case Some(p) => Some((locs[i].switchId, p)) case None => before
      {
        assert ports[..j + 1][..j] == ports[..j];
        if !ports[j].trunk {
          r := Some((locs[i].switchId, ports[j].port));
        }
      }
      assert ports[..|ports|] == ports;
      assert locs[..i + 1][..i] == locs[..i];
    }
    assert locs[..|locs|] == locs;
  }

  /** Some mac of the list upper-cases to mac. */
  ghost predicate Asked(macs: seq<string>, mac: string)
  {
    exists i :: 0 <= i < |macs| && Upper(macs[i]) == mac
  }

  /**
   * findUniqueMACs over the fdb (each mac's locations in visiting order): an
   * unknown mac maps to ("unknown", "unknown"); a known one to the last
   * port visited that is not a trunk, and it is left out when all its
   * ports are trunks.
   */
  method FindUniqueMacs(fdb: map<string, seq<LocationView>>, macs: seq<string>)
    returns (result: map<string, (string, string)>)
    ensures forall mac :: mac in result <==> Asked(macs, mac) && (mac !in fdb || LastFree(fdb[mac]).Some?)
    ensures forall mac :: mac in result ==>
      result[mac] == if mac in fdb then LastFree(fdb[mac]).value else ("unknown", "unknown")
  {
    result := map[];
    for i := 0 to |macs|
      invariant forall mac :: mac in result <==> Asked(macs[..i], mac) && (mac !in fdb || LastFree(fdb[mac]).Some?)
      invariant forall mac :: mac in result ==>
        result[mac] == if mac in fdb then LastFree(fdb[mac]).value else ("unknown", "unknown")
    {
      var mac := Upper(macs[i]);
      assert forall m :: Asked(macs[..i + 1], m) <==> Asked(macs[..i], m) || m == mac by {
        forall m | Asked(macs[..i + 1], m)
          ensures Asked(macs[..i], m) || m == mac
        {
          var k :| 0 <= k < i + 1 && Upper(macs[..i + 1][k]) == m;
          if k < i {
            assert macs[..i][k] == macs[..i + 1][k];
          }
        }
        forall m | Asked(macs[..i], m)
          ensures Asked(macs[..i + 1], m)
        {
          var k :| 0 <= k < i && Upper(macs[..i][k]) == m;
          assert macs[..i + 1][k] == macs[..i][k];
        }
        assert macs[..i + 1][i] == macs[i];
      }
      if mac in fdb {
        var found := ScanLocations(fdb[mac]);
        if found.Some? {
          result := result[mac := found.value];
        }
      } else {
        result := result[mac := ("unknown", "unknown")];
      }
    }
    assert macs[..|macs|] == macs;
  }
}
