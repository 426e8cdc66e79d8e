// The Cisco driver (lib/hardware/switches/cisco.py): the vlan tables of the
// VTP walk without the four built-in non-Ethernet vlans, port-list parsing
// and the lookups from bridge ports to interface names. SNMP walks are inputs.

module Cisco {
  import opened Common
  import opened PortList
  import opened HenVlan
  import opened SwitchModel

  /** The built-in Token Ring and FDDI vlans the driver skips. */
  predicate IsDefaultName(name: string)
  {
    name == "trnet-default" || name == "token-ring-default" || name == "fddi-default" || name == "fddinet-default"
  }

  // ---------------------------------------------------------------------
  // getVLANNames and getVlanInfo.

  /** getVLANNames after the walk: index to name, defaults skipped, a later row winning. */
  function NameTable(rows: seq<Row>): map<int, string>
    decreases |rows|
  {
    if |rows| == 0 then map[]
    else
      var last := rows[|rows| - 1];
      var before := NameTable(rows[..|rows| - 1]);
      if IsDefaultName(last.value) then before else before[last.index := last.value]
  }

  /** getVlanInfo after the walk: name to (index, index), defaults skipped, a later row winning. */
  function InfoTable(rows: seq<Row>): map<string, (int, int)>
    decreases |rows|
  {
    if |rows| == 0 then map[]
    else
      var last := rows[|rows| - 1];
      var before := InfoTable(rows[..|rows| - 1]);
      if IsDefaultName(last.value) then before else before[last.value := (last.index, last.index)]
  }

  method GetVLANNames(rows: seq<Row>) returns (vlans: map<int, string>)
    ensures vlans == NameTable(rows)
  {
    vlans := map[];
    var i := 0;
    while i < |rows|
      invariant 0 <= i <= |rows|
      invariant vlans == NameTable(rows[..i])
    {
      assert rows[..i + 1][..i] == rows[..i];
      if !IsDefaultName(rows[i].value) {
        vlans := vlans[rows[i].index := rows[i].value];
      }
      i := i + 1;
    }
    assert rows[..|rows|] == rows;
  }

  method GetVlanInfo(rows: seq<Row>) returns (vlans: map<string, (int, int)>)
    ensures vlans == InfoTable(rows)
  {
    vlans := map[];
    var i := 0;
    while i < |rows|
      invariant 0 <= i <= |rows|
      invariant vlans == InfoTable(rows[..i])
    {
      assert rows[..i + 1][..i] == rows[..i];
      if !IsDefaultName(rows[i].value) {
        vlans := vlans[rows[i].value := (rows[i].index, rows[i].index)];
      }
      i := i + 1;
    }
    assert rows[..|rows|] == rows;
  }

  /**
   * getVLANNames holds an index exactly when a non-default row has it, under
   * the name of the last such row; no default name is ever listed.
   */
  lemma {:induction false} NameTableMeaning(rows: seq<Row>, k: int)
    ensures k in NameTable(rows) <==> exists i :: 0 <= i < |rows| && rows[i].index == k && !IsDefaultName(rows[i].value)
    ensures k in NameTable(rows) ==> !IsDefaultName(NameTable(rows)[k])
    ensures k in NameTable(rows) ==>
      exists i :: 0 <= i < |rows| && rows[i] == Row(k, NameTable(rows)[k]) &&
        forall j :: i < j < |rows| && rows[j].index == k ==> IsDefaultName(rows[j].value)
    decreases |rows|
  {
    if |rows| > 0 {
      var n := |rows| - 1;
      var init := rows[..n];
      NameTableMeaning(init, k);
      assert forall i :: 0 <= i < n ==> init[i] == rows[i];
      if rows[n].index != k || IsDefaultName(rows[n].value) {
        if exists i :: 0 <= i < |rows| && rows[i].index == k && !IsDefaultName(rows[i].value) {
          var i :| 0 <= i < |rows| && rows[i].index == k && !IsDefaultName(rows[i].value);
          assert i < n && init[i].index == k;
        }
        if k in NameTable(init) {
          assert k in NameTable(rows) && NameTable(rows)[k] == NameTable(init)[k];
          var i :| 0 <= i < n && init[i] == Row(k, NameTable(init)[k]) &&
            forall j :: i < j < n && init[j].index == k ==> IsDefaultName(init[j].value);
          assert rows[i] == init[i];
        }
      }
    }
  }

  /** getVlanInfo lists exactly the non-default names, each with the index of its last row, twice. */
  lemma {:induction false} InfoTableMeaning(rows: seq<Row>, name: string)
    ensures name in InfoTable(rows) <==> !IsDefaultName(name) && exists i :: 0 <= i < |rows| && rows[i].value == name
    ensures name in InfoTable(rows) ==> InfoTable(rows)[name].0 == InfoTable(rows)[name].1
    ensures name in InfoTable(rows) ==>
      exists i :: 0 <= i < |rows| && rows[i] == Row(InfoTable(rows)[name].0, name) &&
        forall j :: i < j < |rows| ==> rows[j].value != name
    decreases |rows|
  {
    if |rows| > 0 {
      var n := |rows| - 1;
      var init := rows[..n];
      InfoTableMeaning(init, name);
      assert forall i :: 0 <= i < n ==> init[i] == rows[i];
      if rows[n].value != name {
        if exists i :: 0 <= i < |rows| && rows[i].value == name {
          var i :| 0 <= i < |rows| && rows[i].value == name;
          assert i < n && init[i].value == name;
        }
      }
    }
  }

  /**
   * The two tables agree on a walk with distinct indices: the index
   * getVlanInfo gives a name is one getVLANNames lists under that name.
   */
  lemma InfoAgreesWithNames(rows: seq<Row>, name: string)
    requires forall i, j :: 0 <= i < j < |rows| ==> rows[i].index != rows[j].index
    requires name in InfoTable(rows)
    ensures InfoTable(rows)[name].0 in NameTable(rows) && NameTable(rows)[InfoTable(rows)[name].0] == name
  {
    InfoTableMeaning(rows, name);
    var k := InfoTable(rows)[name].0;
    NameTableMeaning(rows, k);
    var i :| 0 <= i < |rows| && rows[i] == Row(k, name);
    assert !IsDefaultName(rows[i].value);
  }

  // ---------------------------------------------------------------------
  // Port lists.

  /** __simpleParsePortList: the same slot-checking scan as in hp.py. */
  method SimpleParsePortList(pl: seq<bv8>, numberOfPorts: int) returns (numbers: seq<int>)
    ensures numbers == Scan(pl, SlotCut(|pl|, numberOfPorts))
  {
    numbers := ParseRescanning(pl, numberOfPorts, true);
  }

  /** The ports __parsePortList emits for one ifIndex: one per ifName row with that index, in walk order. */
  function NamesFor(portNames: seq<Row>, ifIndex: int, tagged: bool, n: int): seq<Port>
    decreases |portNames|
  {
    if |portNames| == 0 then []
    else
      var last := portNames[|portNames| - 1];
      NamesFor(portNames[..|portNames| - 1], ifIndex, tagged, n) +
        (if last.index == ifIndex then [Port(Name(last.value), tagged, n)] else [])
  }

  /** The ports emitted for bridge port n: for each row of the port-id walk about n, its names. */
  function IdsFor(portIds: seq<IfIndexRow>, portNames: seq<Row>, tagged: bool, n: int): seq<Port>
    decreases |portIds|
  {
    if |portIds| == 0 then []
    else
      var last := portIds[|portIds| - 1];
      IdsFor(portIds[..|portIds| - 1], portNames, tagged, n) +
        (if last.port == n then NamesFor(portNames, last.ifIndex, tagged, n) else [])
  }

  /** The ports emitted for the set ports, in ascending port order. */
  function Expand(numbers: seq<int>, portIds: seq<IfIndexRow>, portNames: seq<Row>, tagged: bool): seq<Port>
    decreases |numbers|
  {
    if |numbers| == 0 then []
    else
      Expand(numbers[..|numbers| - 1], portIds, portNames, tagged) +
        IdsFor(portIds, portNames, tagged, numbers[|numbers| - 1])
  }

  /** __parsePortList: for each set port, the ifName of each ifIndex the bridge-port walk gives it. */
  method ParsePortList(pl: seq<bv8>, tagged: bool, portIds: seq<IfIndexRow>, portNames: seq<Row>)
    returns (ports: seq<Port>)
    ensures ports == Expand(Scan(pl, 8 * |pl|), portIds, portNames, tagged)
  {
    var numbers := ScanAll(pl);
    ports := [];
    var i := 0;
    while i < |numbers|
      invariant 0 <= i <= |numbers|
      invariant ports == Expand(numbers[..i], portIds, portNames, tagged)
    {
      assert numbers[..i + 1][..i] == numbers[..i];
      ports := MatchIds(portIds, portNames, tagged, numbers[i], ports);
      i := i + 1;
    }
    assert numbers[..|numbers|] == numbers;
  }

  /** The loop over the port-id rows for port n. */
  method MatchIds(portIds: seq<IfIndexRow>, portNames: seq<Row>, tagged: bool, n: int, done: seq<Port>)
    returns (ports: seq<Port>)
    ensures ports == done + IdsFor(portIds, portNames, tagged, n)
  {
    ports := done;
    var a := 0;
    while a < |portIds|
      invariant 0 <= a <= |portIds|
      invariant ports == done + IdsFor(portIds[..a], portNames, tagged, n)
    {
      assert portIds[..a + 1][..a] == portIds[..a];
      if portIds[a].port == n {
        ports := MatchNames(portNames, portIds[a].ifIndex, tagged, n, ports);
      }
      IdsForStep(portIds, portNames, tagged, n, a);
      a := a + 1;
    }
    assert portIds[..|portIds|] == portIds;
  }

  lemma IdsForStep(portIds: seq<IfIndexRow>, portNames: seq<Row>, tagged: bool, n: int, a: int)
    requires 0 <= a < |portIds|
    ensures IdsFor(portIds[..a + 1], portNames, tagged, n) == IdsFor(portIds[..a], portNames, tagged, n) +
      (if portIds[a].port == n then NamesFor(portNames, portIds[a].ifIndex, tagged, n) else [])
  {
    assert portIds[..a + 1][..a] == portIds[..a];
  }

  /** The loop over the ifName rows for one ifIndex. */
  method MatchNames(portNames: seq<Row>, ifIndex: int, tagged: bool, n: int, done: seq<Port>)
    returns (ports: seq<Port>)
    ensures ports == done + NamesFor(portNames, ifIndex, tagged, n)
  {
    ports := done;
    var b := 0;
    while b < |portNames|
      invariant 0 <= b <= |portNames|
      invariant ports == done + NamesFor(portNames[..b], ifIndex, tagged, n)
    {
      assert portNames[..b + 1][..b] == portNames[..b];
      if portNames[b].index == ifIndex {
        ports := ports + [Port(Name(portNames[b].value), tagged, n)];
      }
      b := b + 1;
    }
    assert portNames[..|portNames|] == portNames;
  }

  lemma {:induction false} NamesForMeaning(portNames: seq<Row>, ifIndex: int, tagged: bool, n: int, q: Port)
    ensures q in NamesFor(portNames, ifIndex, tagged, n) <==>
      exists b :: 0 <= b < |portNames| && portNames[b].index == ifIndex && q == Port(Name(portNames[b].value), tagged, n)
    decreases |portNames|
  {
    if |portNames| > 0 {
      var m := |portNames| - 1;
      var init := portNames[..m];
      NamesForMeaning(init, ifIndex, tagged, n, q);
      assert forall b :: 0 <= b < m ==> init[b] == portNames[b];
    }
  }

  lemma {:induction false} IdsForMeaning(portIds: seq<IfIndexRow>, portNames: seq<Row>, tagged: bool, n: int, q: Port)
    ensures q in IdsFor(portIds, portNames, tagged, n) <==>
      exists a :: 0 <= a < |portIds| && portIds[a].port == n && q in NamesFor(portNames, portIds[a].ifIndex, tagged, n)
    decreases |portIds|
  {
    if |portIds| > 0 {
      var m := |portIds| - 1;
      var init := portIds[..m];
      IdsForMeaning(init, portNames, tagged, n, q);
      assert forall a :: 0 <= a < m ==> init[a] == portIds[a];
    }
  }

  lemma {:induction false} ExpandMeaning(numbers: seq<int>, portIds: seq<IfIndexRow>, portNames: seq<Row>, tagged: bool, q: Port)
    ensures q in Expand(numbers, portIds, portNames, tagged) <==>
      exists i :: 0 <= i < |numbers| && q in IdsFor(portIds, portNames, tagged, numbers[i])
    decreases |numbers|
  {
    if |numbers| > 0 {
      var m := |numbers| - 1;
      var init := numbers[..m];
      ExpandMeaning(init, portIds, portNames, tagged, q);
      assert forall i :: 0 <= i < m ==> init[i] == numbers[i];
    }
  }

  /**
   * A port is emitted exactly for a set bit n, a bridge-port row about n and
   * an ifName row for that row's ifIndex: it carries the ifName and n.
   */
  lemma ParsedPorts(pl: seq<bv8>, tagged: bool, portIds: seq<IfIndexRow>, portNames: seq<Row>, q: Port)
    ensures q in Expand(Scan(pl, 8 * |pl|), portIds, portNames, tagged) <==>
      InList(pl, q.internalId) && IsSet(pl, q.internalId) && q.tagged == tagged &&
      exists a, b :: 0 <= a < |portIds| && 0 <= b < |portNames| &&
        portIds[a].port == q.internalId && portNames[b].index == portIds[a].ifIndex &&
        q.number == Name(portNames[b].value)
  {
    var numbers := Scan(pl, 8 * |pl|);
    ScanMembers(pl, 8 * |pl|);
    ExpandMeaning(numbers, portIds, portNames, tagged, q);
    if q in Expand(numbers, portIds, portNames, tagged) {
      var i :| 0 <= i < |numbers| && q in IdsFor(portIds, portNames, tagged, numbers[i]);
      IdsForMeaning(portIds, portNames, tagged, numbers[i], q);
      var a :| 0 <= a < |portIds| && portIds[a].port == numbers[i] &&
        q in NamesFor(portNames, portIds[a].ifIndex, tagged, numbers[i]);
      NamesForMeaning(portNames, portIds[a].ifIndex, tagged, numbers[i], q);
      assert numbers[i] in numbers;
    }
    if InList(pl, q.internalId) && IsSet(pl, q.internalId) && q.tagged == tagged &&
      exists a, b :: 0 <= a < |portIds| && 0 <= b < |portNames| &&
        portIds[a].port == q.internalId && portNames[b].index == portIds[a].ifIndex &&
        q.number == Name(portNames[b].value)
    {
      var a, b :| 0 <= a < |portIds| && 0 <= b < |portNames| &&
        portIds[a].port == q.internalId && portNames[b].index == portIds[a].ifIndex &&
        q.number == Name(portNames[b].value);
      var n := q.internalId;
      assert n in numbers;
      var i :| 0 <= i < |numbers| && numbers[i] == n;
      NamesForMeaning(portNames, portIds[a].ifIndex, tagged, n, q);
      IdsForMeaning(portIds, portNames, tagged, n, q);
    }
  }

  // ---------------------------------------------------------------------
  // getPortInternalID.

  /** The index of the first row with this value. */
  function FirstIndexOf(rows: seq<Row>, value: string): Option<int>
    decreases |rows|
  {
    if |rows| == 0 then None
    else if rows[0].value == value then Some(rows[0].index)
    else FirstIndexOf(rows[1..], value)
  }

  lemma {:induction false} FirstIndexOfMeaning(rows: seq<Row>, value: string)
    ensures FirstIndexOf(rows, value).None? <==> forall i :: 0 <= i < |rows| ==> rows[i].value != value
    ensures FirstIndexOf(rows, value).Some? ==>
      exists i :: 0 <= i < |rows| && rows[i] == Row(FirstIndexOf(rows, value).value, value) &&
        forall j :: 0 <= j < i ==> rows[j].value != value
    decreases |rows|
  {
    if |rows| > 0 {
      FirstIndexOfMeaning(rows[1..], value);
      assert forall i :: 1 <= i < |rows| ==> rows[i] == rows[1..][i - 1];
      if rows[0].value != value && FirstIndexOf(rows, value).Some? {
        var i :| 0 <= i < |rows[1..]| && rows[1..][i] == Row(FirstIndexOf(rows, value).value, value) &&
          forall j :: 0 <= j < i ==> rows[1..][j].value != value;
        assert rows[i + 1] == rows[1..][i];
      }
    }
  }

  /** getPortInternalID: the index of the first ifName row naming the port, else -1. */
  method GetPortInternalID(ifNames: seq<Row>, portNumber: string) returns (r: int)
    ensures r == match FirstIndexOf(ifNames, portNumber) case None => -1 case Some(k) => k
  {
    var i := 0;
    while i < |ifNames|
      invariant 0 <= i <= |ifNames|
      invariant FirstIndexOf(ifNames, portNumber) == FirstIndexOf(ifNames[i..], portNumber)
    {
      assert ifNames[i..][1..] == ifNames[i + 1..];
      if ifNames[i].value == portNumber {
        return ifNames[i].index;
      }
      i := i + 1;
    }
    return -1;
  }

  /** The id found is that of a row naming the port; -1 only when no row does, or a row's index is -1. */
  lemma InternalIdFound(ifNames: seq<Row>, portNumber: string)
    ensures FirstIndexOf(ifNames, portNumber).None? ==> forall i :: 0 <= i < |ifNames| ==> ifNames[i].value != portNumber
    ensures FirstIndexOf(ifNames, portNumber).Some? ==>
      exists i :: 0 <= i < |ifNames| && ifNames[i] == Row(FirstIndexOf(ifNames, portNumber).value, portNumber)
  {
    FirstIndexOfMeaning(ifNames, portNumber);
  }
}
