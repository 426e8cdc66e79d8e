// The HP ProCurve driver (lib/hardware/switches/hp.py): port-list parsing and
// the power-over-ethernet replies of the 2626-PWR model. SNMP values are
// inputs; the PoE administrative table is a map the set operations change.

module Hp {
  import opened Common
  import opened PortList
  import opened HenVlan
  import opened SwitchModel

  /** HpProcurve2626pwrSwitch.getNumberofPorts. */
  const PWR_NUMBER_OF_PORTS := 26

  /**
   * __parsePortList as it takes effect: HpSwitch defines it twice and the
   * later definition, which scans the whole list, replaces the earlier one.
   */
  method ParsePortList(pl: seq<bv8>, tagged: bool) returns (ports: seq<Port>)
    ensures ports == TaggedPorts(Scan(pl, 8 * |pl|), tagged)
  {
    var numbers := ScanAll(pl);
    ports := TaggedPorts(numbers, tagged);
  }

  /** The parsed list holds exactly the set ports, with no cut-off, ascending. */
  lemma ParsedPorts(pl: seq<bv8>, tagged: bool, q: Port)
    ensures q in TaggedPorts(Scan(pl, 8 * |pl|), tagged) <==>
      q.tagged == tagged && q.number == Num(q.internalId) && InList(pl, q.internalId) && IsSet(pl, q.internalId)
    ensures Ascending(Scan(pl, 8 * |pl|))
  {
    ScanMembers(pl, 8 * |pl|);
    TaggedPortsMembers(Scan(pl, 8 * |pl|), tagged, q);
  }

  /**
   * __simpleParsePortList: the set ports as numbers; the scan returns as soon
   * as port_number reaches numberOfPorts (getNumberofPorts of the switch).
   */
  method SimpleParsePortList(pl: seq<bv8>, numberOfPorts: int) returns (numbers: seq<int>)
    ensures numbers == Scan(pl, SlotCut(|pl|, numberOfPorts))
  {
    numbers := ParseRescanning(pl, numberOfPorts, true);
  }

  /** A reachable port count cuts the list there; any other count leaves the whole list. */
  lemma SimpleParseCut(pl: seq<bv8>, numberOfPorts: int, p: int)
    ensures var n := SlotCut(|pl|, numberOfPorts);
      p in Scan(pl, n) <==>
        InList(pl, p) && IsSet(pl, p) && (1 <= numberOfPorts <= 8 * |pl| ==> p <= numberOfPorts)
    ensures Ascending(Scan(pl, SlotCut(|pl|, numberOfPorts)))
  {
    ScanMembers(pl, SlotCut(|pl|, numberOfPorts));
  }

  /** The two parsers agree on a switch whose port count is not inside the list. */
  lemma SimpleAgreesWithParse(pl: seq<bv8>, numberOfPorts: int, tagged: bool)
    requires !(1 <= numberOfPorts <= 8 * |pl|)
    ensures Numbers(TaggedPorts(Scan(pl, SlotCut(|pl|, numberOfPorts)), tagged)) ==
      Numbers(TaggedPorts(Scan(pl, 8 * |pl|), tagged))
  {
  }

  /** A (code, message) reply of the power operations. */
  datatype Reply = Reply(code: int, message: string)

  const SUCCESS := Reply(0, "success")

  /** The hpPoeTable values: 1 delivers power, 2 does not. */
  const POE_ON := 1
  const POE_OFF := 2

  /** status: the reply for the value the PoE table holds for a port. */
  function PowerStatus(result: int): (r: Reply)
    ensures r.code == 0 <==> result == POE_ON || result == POE_OFF
    ensures r.code != 0 ==> r.code == -1
  {
    if result == POE_ON then Reply(0, "on")
    else if result == POE_OFF then Reply(0, "off")
    else Reply(-1, "unknown power status " + IntToString(result))
  }

  /** The reply names the value: two values with the same status are the same value. */
  lemma StatusDeterminesResult(a: int, b: int)
    requires PowerStatus(a) == PowerStatus(b)
    ensures a == b
  {
    var prefix := "unknown power status ";
    if a != POE_ON && a != POE_OFF && b != POE_ON && b != POE_OFF {
      var sa, sb := IntToString(a), IntToString(b);
      assert prefix + sa == prefix + sb;
      assert sa == (prefix + sa)[|prefix|..];
      assert sb == (prefix + sb)[|prefix|..];
      IntToStringInjective(a, b);
    }
  }

  /** What getPowerDetectionStatus returns: a state name, or the raw value when it knows none. */
  datatype Detection = Named(name: string) | Raw(code: int)

  const DETECTION_NAMES := ["disabled", "searching", "delivering", "fault", "test", "otherFault"]

  /** getPowerDetectionStatus: codes 1 to 6 are named, anything else comes back unchanged. */
  function PowerDetectionStatus(result: int): (r: Detection)
    ensures r.Named? <==> 1 <= result <= 6
    ensures r.Named? ==> r.name == DETECTION_NAMES[result - 1]
    ensures r.Raw? ==> r.code == result
  {
    if result == 1 then Named("disabled")
    else if result == 2 then Named("searching")
    else if result == 3 then Named("delivering")
    else if result == 4 then Named("fault")
    else if result == 5 then Named("test")
    else if result == 6 then Named("otherFault")
    else Raw(result)
  }

  /** The six names are distinct, so the reply identifies the code. */
  lemma DetectionInjective(a: int, b: int)
    requires PowerDetectionStatus(a) == PowerDetectionStatus(b)
    ensures a == b
  {
    assert forall i, j :: 0 <= i < j < 6 ==> DETECTION_NAMES[i] != DETECTION_NAMES[j];
  }

  /** The PoE table of a switch: port number to its hpPoeTable value. */
  class PoeSwitch {
    var poe: map<int, int>

    constructor (poe: map<int, int>)
      ensures this.poe == poe
    {
      this.poe := poe;
    }

    /**
     * poweroff: writes 2 for the port; error is the SNMP error status after
     * the set, in which case the table is taken to be unchanged.
     */
    method PowerOff(port: int, error: bool) returns (r: Reply)
      modifies this
      ensures r == if error then Reply(-1, "could not turn port off") else SUCCESS
      ensures poe == if error then old(poe) else old(poe)[port := POE_OFF]
      ensures !error ==> PowerStatus(poe[port]) == Reply(0, "off")
    {
      if error {
        return Reply(-1, "could not turn port off");
      }
      poe := poe[port := POE_OFF];
      return SUCCESS;
    }

    /** poweron: writes 1 for the port, with the same error handling. */
    method PowerOn(port: int, error: bool) returns (r: Reply)
      modifies this
      ensures r == if error then Reply(-1, "could not turn port on") else SUCCESS
      ensures poe == if error then old(poe) else old(poe)[port := POE_ON]
      ensures !error ==> PowerStatus(poe[port]) == Reply(0, "on")
    {
      if error {
        return Reply(-1, "could not turn port on");
      }
      poe := poe[port := POE_ON];
      return SUCCESS;
    }

    /** restart: power off, then on; the reply is that of poweron, whatever poweroff replied. */
    method Restart(port: int, offError: bool, onError: bool) returns (r: Reply)
      modifies this
      ensures r == if onError then Reply(-1, "could not turn port on") else SUCCESS
      ensures !onError ==> poe == old(poe)[port := POE_ON]
      ensures onError ==> poe == if offError then old(poe) else old(poe)[port := POE_OFF]
      ensures !onError ==> PowerStatus(poe[port]) == Reply(0, "on")
    {
      var _ := PowerOff(port, offError);
      r := PowerOn(port, onError);
    }
  }
}
