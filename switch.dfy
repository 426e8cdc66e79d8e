// The port and vlan dictionaries of the Switch superclass in
// lib/hardware/switches/switch.py. The bitmap helpers of the same file
// (mask, inv_mask, getEmptyBitMap, printPortMap) are in PortList.

module SwitchModel {
  import opened Common
  import opened HenVlan

  /** One row of an SNMP walk: the last OID component and the value as str() shows it. */
  datatype Row = Row(index: int, value: string)

  /** One row of a driver's vlan-mode table: the port key and int() of the value. */
  datatype ModeRow = ModeRow(index: int, mode: int)

  /** One row of the dot1dBasePortIfIndex walk: bridge port and its ifIndex. */
  datatype IfIndexRow = IfIndexRow(port: int, ifIndex: int)

  /** The ifType value of an Ethernet interface (ethernetCsmacd). */
  const ETHERNET_CSMACD := "6"

  /** The indices of the ifType rows that are Ethernet, in walk order. */
  function EthernetIndices(ifTypes: seq<Row>): seq<int>
    decreases |ifTypes|
  {
    if |ifTypes| == 0 then []
    else
      var last := ifTypes[|ifTypes| - 1];
      EthernetIndices(ifTypes[..|ifTypes| - 1]) + (if last.value == ETHERNET_CSMACD then [last.index] else [])
  }

  lemma {:induction false} EthernetIndicesMeaning(ifTypes: seq<Row>, x: int)
    ensures x in EthernetIndices(ifTypes) <==>
      exists i :: 0 <= i < |ifTypes| && ifTypes[i].index == x && ifTypes[i].value == ETHERNET_CSMACD
    decreases |ifTypes|
  {
    if |ifTypes| > 0 {
      var init := ifTypes[..|ifTypes| - 1];
      EthernetIndicesMeaning(init, x);
      if exists i :: 0 <= i < |init| && init[i].index == x && init[i].value == ETHERNET_CSMACD {
        var i :| 0 <= i < |init| && init[i].index == x && init[i].value == ETHERNET_CSMACD;
        assert ifTypes[i] == init[i];
      }
      if exists i :: 0 <= i < |ifTypes| && ifTypes[i].index == x && ifTypes[i].value == ETHERNET_CSMACD {
        var i :| 0 <= i < |ifTypes| && ifTypes[i].index == x && ifTypes[i].value == ETHERNET_CSMACD;
        if i < |init| {
          assert init[i] == ifTypes[i];
        }
      }
    }
  }

  /** The port names refreshPortInfo keeps, by ifName index; a later row overrides an earlier one. */
  function KeptNames(ifNames: seq<Row>, ethernet: seq<int>): map<int, string>
    decreases |ifNames|
  {
    if |ifNames| == 0 then map[]
    else
      var last := ifNames[|ifNames| - 1];
      var before := KeptNames(ifNames[..|ifNames| - 1], ethernet);
      if last.index in ethernet then before[last.index := last.value] else before
  }

  /**
   * An index is kept exactly when some ifName row has it and it is Ethernet;
   * its name is that of the last such row.
   */
  lemma {:induction false} KeptNamesMeaning(ifNames: seq<Row>, ethernet: seq<int>, k: int)
    ensures k in KeptNames(ifNames, ethernet) <==>
      k in ethernet && exists i :: 0 <= i < |ifNames| && ifNames[i].index == k
    ensures k in KeptNames(ifNames, ethernet) ==>
      exists i :: 0 <= i < |ifNames| && ifNames[i] == Row(k, KeptNames(ifNames, ethernet)[k]) &&
        forall j :: i < j < |ifNames| ==> ifNames[j].index != k
    decreases |ifNames|
  {
    if |ifNames| > 0 {
      var n := |ifNames| - 1;
      var init := ifNames[..n];
      KeptNamesMeaning(init, ethernet, k);
      assert forall i :: 0 <= i < n ==> init[i] == ifNames[i];
      if ifNames[n].index != k {
        if (exists i :: 0 <= i < |ifNames| && ifNames[i].index == k) {
          var i :| 0 <= i < |ifNames| && ifNames[i].index == k;
          assert i < n && init[i].index == k;
        }
      }
    }
  }

  class Switch {
    var switchName: string
    var ports: map<int, SimplePort>
    var vlans: map<Field, SimpleVlan>

    /** A switch with empty port and vlan dictionaries (before the SNMP refresh of __init__). */
    constructor (switchName: string)
      ensures this.switchName == switchName && ports == map[] && vlans == map[]
    {
      this.switchName := switchName;
      ports := map[];
      vlans := map[];
    }

    /** getPort: the port under the key, None where Python raises KeyError. */
    function GetPort(localId: int): (r: Option<SimplePort>)
      reads this
      ensures r.Some? <==> localId in ports
      ensures r.Some? ==> r.value == ports[localId]
    {
      if localId in ports then Some(ports[localId]) else None
    }

    /** addPort: the port is stored under its own id, replacing any port there. */
    method AddPort(port: SimplePort)
      modifies this
      ensures ports == old(ports)[port.id := port]
      ensures GetPort(port.id) == Some(port)
      ensures switchName == old(switchName) && vlans == old(vlans)
    {
      ports := ports[port.id := port];
    }

    /** clearPorts */
    method ClearPorts()
      modifies this
      ensures ports == map[]
      ensures forall k :: GetPort(k) == None
      ensures switchName == old(switchName) && vlans == old(vlans)
    {
      ports := map[];
    }

    /**
     * getPortByName: some port whose str(name) is str(n), in dictionary order
     * (any order here), or None when there is none.
     */
    method GetPortByName(n: Field) returns (r: SimplePort?)
      ensures r != null ==> r in ports.Values && Show(r.name) == Show(n)
      ensures r == null <==> forall k :: k in ports ==> Show(ports[k].name) != Show(n)
    {
      var keys := ports.Keys;
      while true
        invariant keys <= ports.Keys
        invariant forall k :: k in ports && k !in keys ==> Show(ports[k].name) != Show(n)
        decreases keys
      {
        if k :| k in keys {
          if Show(ports[k].name) == Show(n) {
            return ports[k];
          }
          keys := keys - {k};
        } else {
          break;
        }
      }
      return null;
    }

    /** resetPortsVlanInfo: every port loses its vlans; nothing else changes. */
    method ResetPortsVlanInfo()
      modifies set k | k in ports :: ports[k]
      ensures forall k :: k in ports ==> ports[k].Membership() == (NoPair, [], NoPair)
      ensures forall k :: k in ports ==> ports[k].Identity() == old(ports[k].Identity()) && ports[k].macs == old(ports[k].macs)
    {
      var keys := ports.Keys;
      while true
        invariant keys <= ports.Keys
        invariant forall k :: k in ports && k !in keys ==> ports[k].Membership() == (NoPair, [], NoPair)
        invariant forall k :: k in ports ==> ports[k].Identity() == old(ports[k].Identity()) && ports[k].macs == old(ports[k].macs)
        decreases keys
      {
        if k :| k in keys {
          ports[k].SetUntagged(NoPair);
          ports[k].SetPvid(NoPair);
          ports[k].SetTagged([]);
          keys := keys - {k};
        } else {
          break;
        }
      }
    }

    /** resetPortsMacInfo: every port loses its mac list; nothing else changes. */
    method ResetPortsMacInfo()
      modifies set k | k in ports :: ports[k]
      ensures forall k :: k in ports ==> ports[k].macs == []
      ensures forall k :: k in ports ==> ports[k].Identity() == old(ports[k].Identity()) && ports[k].Membership() == old(ports[k].Membership())
    {
      var keys := ports.Keys;
      while true
        invariant keys <= ports.Keys
        invariant forall k :: k in ports && k !in keys ==> ports[k].macs == []
        invariant forall k :: k in ports ==> ports[k].Identity() == old(ports[k].Identity()) && ports[k].Membership() == old(ports[k].Membership())
        decreases keys
      {
        if k :| k in keys {
          ports[k].SetMacs([]);
          keys := keys - {k};
        } else {
          break;
        }
      }
    }

    /** getVlan: the vlan under the key, None where Python raises KeyError. */
    function GetVlan(localId: Field): (r: Option<SimpleVlan>)
      reads this
      ensures r.Some? <==> localId in vlans
      ensures r.Some? ==> r.value == vlans[localId]
    {
      if localId in vlans then Some(vlans[localId]) else None
    }

    /**
     * getVlanByName: some vlan whose str(name) equals the argument (compared
     * as given, not through str()), or None when there is none.
     */
    method GetVlanByName(name: string) returns (r: SimpleVlan?)
      ensures r != null ==> r in vlans.Values && Show(r.name) == name
      ensures r == null <==> forall k :: k in vlans ==> Show(vlans[k].name) != name
    {
      var keys := vlans.Keys;
      while true
        invariant keys <= vlans.Keys
        invariant forall k :: k in vlans && k !in keys ==> Show(vlans[k].name) != name
        decreases keys
      {
        if k :| k in keys {
          if Show(vlans[k].name) == name {
            return vlans[k];
          }
          keys := keys - {k};
        } else {
          break;
        }
      }
      return null;
    }

    /** addVlan: the vlan is stored under its local id, replacing any vlan there. */
    method AddVlan(vlan: SimpleVlan)
      modifies this
      ensures vlans == old(vlans)[vlan.localId := vlan]
      ensures GetVlan(vlan.localId) == Some(vlan)
      ensures switchName == old(switchName) && ports == old(ports)
    {
      vlans := vlans[vlan.localId := vlan];
    }

    /** clearVlans */
    method ClearVlans()
      modifies this
      ensures vlans == map[]
      ensures forall k :: GetVlan(k) == None
      ensures switchName == old(switchName) && ports == old(ports)
    {
      vlans := map[];
    }

    /**
     * refreshPortInfo, with the ifName and ifType walks and the driver's
     * vlan-mode table as inputs: the port map is rebuilt from the ifName rows
     * whose index is Ethernet, then each mode row sets the vlan mode of its
     * port; a mode row for a missing port raises KeyError and ends the update.
     */
    method RefreshPortInfo(ifNames: seq<Row>, ifTypes: seq<Row>, modes: Option<seq<ModeRow>>)
      returns (st: Status)
      modifies this
      ensures switchName == old(switchName) && vlans == old(vlans)
      ensures ports.Keys == KeptNames(ifNames, EthernetIndices(ifTypes)).Keys
      ensures forall k :: k in ports ==>
        fresh(ports[k]) && ports[k].id == k &&
        ports[k].name == Text(KeptNames(ifNames, EthernetIndices(ifTypes))[k]) &&
        ports[k].switch == Text(switchName) &&
        ports[k].untagged == NoPair && ports[k].tagged == [] && ports[k].pvid == NoPair &&
        ports[k].macs == [] && ports[k].notes == NoValue
      ensures var applied := ApplyModes(ports.Keys, if modes.Some? then modes.value else []);
        (st == if applied.failed then Raised(KeyError) else Ok) &&
        forall k :: k in ports ==>
          ports[k].vlanMode == if k in applied.modes then applied.modes[k] else 0
    {
      ClearPorts();
      var ethernet := CollectEthernet(ifTypes);
      for i := 0 to |ifNames|
        invariant switchName == old(switchName) && vlans == old(vlans)
        invariant ports.Keys == KeptNames(ifNames[..i], ethernet).Keys
        invariant forall k :: k in ports ==>
          fresh(ports[k]) && ports[k].id == k &&
          ports[k].name == Text(KeptNames(ifNames[..i], ethernet)[k]) &&
          ports[k].switch == Text(switchName) &&
          ports[k].untagged == NoPair && ports[k].tagged == [] && ports[k].pvid == NoPair &&
          ports[k].macs == [] && ports[k].notes == NoValue && ports[k].vlanMode == 0
        invariant forall k, j :: k in ports && j in ports && k != j ==> ports[k] != ports[j]
      {
        assert ifNames[..i + 1][..i] == ifNames[..i];
        var row := ifNames[i];
        if row.index in ethernet {
          var sp := new SimplePort(Text(row.value), row.index, Text(switchName));
          AddPort(sp);
        }
      }
      assert ifNames[..|ifNames|] == ifNames;
      st := SetModes(if modes.Some? then modes.value else []);
    }

    /** The mode loop of refreshPortInfo, over ports with distinct objects. */
    method SetModes(modes: seq<ModeRow>) returns (st: Status)
      requires forall k, j :: k in ports && j in ports && k != j ==> ports[k] != ports[j]
      modifies set k | k in ports :: ports[k]
      ensures var applied := ApplyModes(ports.Keys, modes);
        (st == if applied.failed then Raised(KeyError) else Ok) &&
        forall k :: k in ports ==>
          ports[k].vlanMode == if k in applied.modes then applied.modes[k] else old(ports[k].vlanMode)
      ensures forall k :: k in ports ==>
        ports[k].name == old(ports[k].name) && ports[k].id == old(ports[k].id) &&
        ports[k].switch == old(ports[k].switch) && ports[k].untagged == old(ports[k].untagged) &&
        ports[k].tagged == old(ports[k].tagged) && ports[k].pvid == old(ports[k].pvid) &&
        ports[k].macs == old(ports[k].macs) && ports[k].notes == old(ports[k].notes)
    {
      for i := 0 to |modes|
        invariant !ApplyModes(ports.Keys, modes[..i]).failed
        invariant forall k :: k in ports ==>
          ports[k].vlanMode == if k in ApplyModes(ports.Keys, modes[..i]).modes
            then ApplyModes(ports.Keys, modes[..i]).modes[k] else old(ports[k].vlanMode)
        invariant forall k :: k in ports ==>
          ports[k].name == old(ports[k].name) && ports[k].id == old(ports[k].id) &&
          ports[k].switch == old(ports[k].switch) && ports[k].untagged == old(ports[k].untagged) &&
          ports[k].tagged == old(ports[k].tagged) && ports[k].pvid == old(ports[k].pvid) &&
          ports[k].macs == old(ports[k].macs) && ports[k].notes == old(ports[k].notes)
      {
        assert modes[..i + 1][..i] == modes[..i];
        var row := modes[i];
        var sp := GetPort(row.index);
        if sp.None? {
          assert modes == modes[..i + 1] + modes[i + 1..];
          ApplyModesStops(ports.Keys, modes[..i + 1], modes[i + 1..]);
          return Raised(KeyError);
        }
        sp.value.vlanMode := row.mode;
      }
      assert modes[..|modes|] == modes;
      return Ok;
    }
  }

  /** The ethernet_ports loop of refreshPortInfo. */
  method CollectEthernet(ifTypes: seq<Row>) returns (ethernet: seq<int>)
    ensures ethernet == EthernetIndices(ifTypes)
  {
    ethernet := [];
    for i := 0 to |ifTypes|
      invariant ethernet == EthernetIndices(ifTypes[..i])
    {
      assert ifTypes[..i + 1][..i] == ifTypes[..i];
      if ifTypes[i].value == ETHERNET_CSMACD {
        ethernet := ethernet + [ifTypes[i].index];
      }
    }
    assert ifTypes[..|ifTypes|] == ifTypes;
  }

  /** The vlan modes the mode rows set, and whether a row named a missing port. */
  datatype Applied = Applied(modes: map<int, int>, failed: bool)

  /** The mode loop: rows in order, the later row for a port winning, stopping at a missing port. */
  function ApplyModes(keys: set<int>, modes: seq<ModeRow>): Applied
    decreases |modes|
  {
    if |modes| == 0 then Applied(map[], false)
    else
      var prev := ApplyModes(keys, modes[..|modes| - 1]);
      var row := modes[|modes| - 1];
      if prev.failed then prev
      else if row.index !in keys then Applied(prev.modes, true)
      else Applied(prev.modes[row.index := row.mode], false)
  }

  lemma {:induction false} ApplyModesStops(keys: set<int>, done: seq<ModeRow>, later: seq<ModeRow>)
    requires ApplyModes(keys, done).failed
    ensures ApplyModes(keys, done + later) == ApplyModes(keys, done)
    decreases |later|
  {
    if |later| > 0 {
      ApplyModesStops(keys, done, later[..|later| - 1]);
      assert (done + later)[..|done + later| - 1] == done + later[..|later| - 1];
    } else {
      assert done + later == done;
    }
  }

  /**
   * The mode update succeeds exactly when every row names a port, and then
   * sets each named port to the mode of its last row.
   */
  lemma {:induction false} ApplyModesMeaning(keys: set<int>, modes: seq<ModeRow>)
    ensures !ApplyModes(keys, modes).failed <==> forall i :: 0 <= i < |modes| ==> modes[i].index in keys
    ensures !ApplyModes(keys, modes).failed ==> forall k :: k in ApplyModes(keys, modes).modes ==>
      exists i :: 0 <= i < |modes| && modes[i] == ModeRow(k, ApplyModes(keys, modes).modes[k]) &&
        forall j :: i < j < |modes| ==> modes[j].index != k
    decreases |modes|
  {
    if |modes| > 0 {
      var n := |modes| - 1;
      var init := modes[..n];
      ApplyModesMeaning(keys, init);
      assert forall i :: 0 <= i < n ==> init[i] == modes[i];
    }
  }

  // ---------------------------------------------------------------------
  // The Port lists the drivers' __parsePortList functions build.

  /** Port(n, tagged, n) for each port number n, in order. */
  function TaggedPorts(numbers: seq<int>, tagged: bool): (ports: seq<Port>)
    ensures |ports| == |numbers|
    ensures forall i :: 0 <= i < |numbers| ==> ports[i] == Port(Num(numbers[i]), tagged, numbers[i])
  {
    if |numbers| == 0 then [] else [Port(Num(numbers[0]), tagged, numbers[0])] + TaggedPorts(numbers[1..], tagged)
  }

  /** The port numbers of a port list. */
  function Numbers(ports: seq<Port>): (numbers: seq<PortNumber>)
    ensures |numbers| == |ports|
    ensures forall i :: 0 <= i < |ports| ==> numbers[i] == ports[i].number
  {
    if |ports| == 0 then [] else [ports[0].number] + Numbers(ports[1..])
  }

  /** A parsed Port list carries exactly the plain port numbers, each as its own internal id. */
  lemma TaggedPortsMembers(numbers: seq<int>, tagged: bool, q: Port)
    ensures q in TaggedPorts(numbers, tagged) <==> exists n :: n in numbers && q == Port(Num(n), tagged, n)
    ensures Numbers(TaggedPorts(numbers, tagged)) == seq(|numbers|, i requires 0 <= i < |numbers| => Num(numbers[i]))
  {
    var ports := TaggedPorts(numbers, tagged);
    if q in ports {
      var i :| 0 <= i < |ports| && ports[i] == q;
      assert numbers[i] in numbers;
    }
    if exists n :: n in numbers && q == Port(Num(n), tagged, n) {
      var n :| n in numbers && q == Port(Num(n), tagged, n);
      var i :| 0 <= i < |numbers| && numbers[i] == n;
      assert ports[i] == q;
    }
  }
}
