// The Linksys SRW2048 driver (lib/hardware/switches/linksys.py): its port-list
// parsing and its vlan name table, where the driver adds the default vlan,
// which the switch's SNMP tables leave out. SNMP walks are inputs (seq<Row>).

module Linksys {
  import opened Common
  import opened PortList
  import opened HenVlan
  import opened SwitchModel

  /** getNumberofPorts: the driver uses 48 ports. */
  const NUMBER_OF_PORTS := 48

  /** The name the driver gives the default vlan, whose internal id is the string "1". */
  const DEFAULT_VLAN := "Default VLAN"
  const DEFAULT_KEY := "1"

  /** The last port the parse covers: 48 when the list is long enough, else all of it. */
  lemma CoveredPorts(len: nat)
    ensures OctetCut(len, NUMBER_OF_PORTS) == if len >= 6 then 48 else 8 * len
  {
  }

  /** __parsePortList: the set ports up to port 48, ascending, each its own internal id. */
  method ParsePortList(pl: seq<bv8>, tagged: bool) returns (ports: seq<Port>)
    ensures ports == TaggedPorts(Scan(pl, OctetCut(|pl|, NUMBER_OF_PORTS)), tagged)
  {
    var numbers := ParseRescanning(pl, NUMBER_OF_PORTS, false);
    ports := TaggedPorts(numbers, tagged);
  }

  /** __simpleParsePortList: the same ports as plain numbers. */
  method SimpleParsePortList(pl: seq<bv8>) returns (numbers: seq<int>)
    ensures numbers == Scan(pl, OctetCut(|pl|, NUMBER_OF_PORTS))
  {
    numbers := ParseRescanning(pl, NUMBER_OF_PORTS, false);
  }

  /**
   * A port is in the parsed list exactly when its bit is set and it is
   * among the first 48; no port appears twice.
   */
  lemma ParsedPorts(pl: seq<bv8>, tagged: bool, q: Port)
    ensures var n := OctetCut(|pl|, NUMBER_OF_PORTS);
      q in TaggedPorts(Scan(pl, n), tagged) <==>
        q.tagged == tagged && q.number == Num(q.internalId) &&
        1 <= q.internalId <= NUMBER_OF_PORTS && InList(pl, q.internalId) && IsSet(pl, q.internalId)
    ensures Ascending(Scan(pl, OctetCut(|pl|, NUMBER_OF_PORTS)))
  {
    var n := OctetCut(|pl|, NUMBER_OF_PORTS);
    CoveredPorts(|pl|);
    ScanMembers(pl, n);
    TaggedPortsMembers(Scan(pl, n), tagged, q);
  }

  /**
   * Setting a port with __setPortList and parsing the result shows it:
   * addPort and then getPortsOnVLAN agree for every port of the switch.
   */
  lemma SetThenParse(pl: seq<bv8>, port: int, tagged: bool)
    requires 1 <= port <= NUMBER_OF_PORTS && port <= 8 * |pl|
    ensures var r := Updated(pl, port, true, false);
      Port(Num(port), tagged, port) in TaggedPorts(Scan(r, OctetCut(|r|, NUMBER_OF_PORTS)), tagged)
  {
    var r := Updated(pl, port, true, false);
    UpdatedLength(pl, port, true, false);
    EnableSetsOnlyPort(pl, port, false);
    ParsedPorts(r, tagged, Port(Num(port), tagged, port));
  }

  /** A key of the vlan dictionary: an OID component, or the string key of the default vlan. */
  datatype VlanKey = OidKey(index: int) | StrKey(s: string)

  /** The dictionary the walk builds, a later row overriding an earlier one. */
  function NameTable(rows: seq<Row>): map<VlanKey, string>
    decreases |rows|
  {
    if |rows| == 0 then map[]
    else
      var last := rows[|rows| - 1];
      NameTable(rows[..|rows| - 1])[OidKey(last.index) := last.value]
  }

  /** A key is in the table exactly when some row has it; its name is that of the last such row. */
  lemma {:induction false} NameTableMeaning(rows: seq<Row>, k: VlanKey)
    ensures k in NameTable(rows) <==> k.OidKey? && exists i :: 0 <= i < |rows| && rows[i].index == k.index
    ensures k in NameTable(rows) ==>
      exists i :: 0 <= i < |rows| && rows[i] == Row(k.index, NameTable(rows)[k]) &&
        forall j :: i < j < |rows| ==> rows[j].index != k.index
    decreases |rows|
  {
    if |rows| > 0 {
      var n := |rows| - 1;
      var init := rows[..n];
      NameTableMeaning(init, k);
      assert forall i :: 0 <= i < n ==> init[i] == rows[i];
      if k != OidKey(rows[n].index) && k.OidKey? {
        if exists i :: 0 <= i < |rows| && rows[i].index == k.index {
          var i :| 0 <= i < |rows| && rows[i].index == k.index;
          assert i < n && init[i].index == k.index;
        }
      }
    }
  }

  /** getVLANNames: the table of the walk plus the default vlan under the string key "1". */
  method GetVLANNames(rows: seq<Row>) returns (vlans: map<VlanKey, string>)
    ensures vlans == NameTable(rows)[StrKey(DEFAULT_KEY) := DEFAULT_VLAN]
  {
    vlans := map[];
    var i := 0;
    while i < |rows|
      invariant 0 <= i <= |rows|
      invariant vlans == NameTable(rows[..i])
    {
      assert rows[..i + 1][..i] == rows[..i];
      vlans := vlans[OidKey(rows[i].index) := rows[i].value];
      i := i + 1;
    }
    assert rows[..|rows|] == rows;
    vlans := vlans[StrKey(DEFAULT_KEY) := DEFAULT_VLAN];
  }

  /** The default entry never hides a row of the walk: the walk's keys are all OID components. */
  lemma DefaultKeyIsExtra(rows: seq<Row>)
    ensures StrKey(DEFAULT_KEY) !in NameTable(rows)
    ensures forall k :: k in NameTable(rows) ==> k in NameTable(rows)[StrKey(DEFAULT_KEY) := DEFAULT_VLAN]
  {
    NameTableMeaning(rows, StrKey(DEFAULT_KEY));
  }

  /** What __getVLANInternalID returns: the string "1", an OID component, or -1. */
  datatype InternalId = IdText(s: string) | IdNum(n: int)

  /** The index of the last row with this name, if any. */
  function LastIndexOf(rows: seq<Row>, name: string): (r: Option<int>)
    decreases |rows|
  {
    if |rows| == 0 then None
    else if rows[|rows| - 1].value == name then Some(rows[|rows| - 1].index)
    else LastIndexOf(rows[..|rows| - 1], name)
  }

  lemma {:induction false} LastIndexOfMeaning(rows: seq<Row>, name: string)
    ensures LastIndexOf(rows, name).None? <==> forall i :: 0 <= i < |rows| ==> rows[i].value != name
    ensures LastIndexOf(rows, name).Some? ==>
      exists i :: 0 <= i < |rows| && rows[i] == Row(LastIndexOf(rows, name).value, name) &&
        forall j :: i < j < |rows| ==> rows[j].value != name
    decreases |rows|
  {
    if |rows| > 0 {
      var n := |rows| - 1;
      var init := rows[..n];
      LastIndexOfMeaning(init, name);
      assert forall i :: 0 <= i < n ==> init[i] == rows[i];
      if rows[n].value != name {
        assert LastIndexOf(rows, name) == LastIndexOf(init, name);
        if LastIndexOf(init, name).Some? {
          var i :| 0 <= i < n && init[i] == Row(LastIndexOf(init, name).value, name) &&
            forall j :: i < j < n ==> init[j].value != name;
          assert rows[i] == init[i];
        }
      }
    }
  }

  /** __getVLANInternalID: "1" for the default vlan, else the id of the last row so named, else -1. */
  method GetVLANInternalID(rows: seq<Row>, vlanName: string) returns (r: InternalId)
    ensures vlanName == DEFAULT_VLAN ==> r == IdText(DEFAULT_KEY)
    ensures vlanName != DEFAULT_VLAN ==>
      r == match LastIndexOf(rows, vlanName) case None => IdNum(-1) case Some(k) => IdNum(k)
  {
    if vlanName == DEFAULT_VLAN {
      return IdText(DEFAULT_KEY);
    }
    var internalId: Option<int> := None;
    var i := 0;
    while i < |rows|
      invariant 0 <= i <= |rows|
      invariant internalId == LastIndexOf(rows[..i], vlanName)
    {
      assert rows[..i + 1][..i] == rows[..i];
      if rows[i].value == vlanName {
        internalId := Some(rows[i].index);
      }
      i := i + 1;
    }
    assert rows[..|rows|] == rows;
    r := match internalId case None => IdNum(-1) case Some(k) => IdNum(k);
  }

  /**
   * The two lookups are inverse for names the walk carries once: the name
   * getVLANNames lists under a key leads __getVLANInternalID back to it.
   */
  lemma NamesThenInternalId(rows: seq<Row>, i: int)
    requires 0 <= i < |rows| && rows[i].value != DEFAULT_VLAN
    requires forall j :: 0 <= j < |rows| && j != i ==> rows[j].value != rows[i].value && rows[j].index != rows[i].index
    ensures OidKey(rows[i].index) in NameTable(rows)
    ensures NameTable(rows)[StrKey(DEFAULT_KEY) := DEFAULT_VLAN][OidKey(rows[i].index)] == rows[i].value
    ensures LastIndexOf(rows, rows[i].value) == Some(rows[i].index)
  {
    NameTableMeaning(rows, OidKey(rows[i].index));
    LastIndexOfMeaning(rows, rows[i].value);
  }
}
