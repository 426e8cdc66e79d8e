// The power daemon's tables and decisions (bin/daemons/powerdaemon.py):
// which switch ports a device name maps to, which devices are configured to
// be kept on or off and in which boot phase, whether a device is in the
// requested state, and what a request to set a port's state does. The
// power switches are inputs: the state a port reports and whether a switch
// is at its current limit.

module PowerDaemon {
  import opened Common

  /** A (power switch id, port) pair. */
  type PortPair = (string, string)

  /** What getPortMapping gives: the ports, None, or the ValueError of a direct name without a second ':'. */
  datatype PortMap = Ports(pairs: seq<PortPair>) | NotPresent | Raises

  const DIRECT: string := "direct://"

  /** getPortMapping: "direct://S:P" names port P of switch instance S; other names are looked up. */
  function PortMapping(instances: set<string>, computerToSwitch: map<string, seq<PortPair>>, portname: string): PortMap
  {
    if |portname| >= 9 && portname[..9] == DIRECT then
      var i := FindChar(portname, ':', 9);
      if i == -1 then Raises
      else if portname[9..i] in instances then Ports([(portname[9..i], portname[i + 1..])])
      else NotPresent
    else if portname in computerToSwitch then Ports(computerToSwitch[portname])
    else NotPresent
  }

  /**
   * A direct name built from a switch name without ':' maps to exactly that
   * switch and port when the switch has an instance, else to None.
   */
  lemma DirectMapping(instances: set<string>, computerToSwitch: map<string, seq<PortPair>>, s: string, p: string)
    requires forall k :: 0 <= k < |s| ==> s[k] != ':'
    ensures PortMapping(instances, computerToSwitch, DIRECT + s + ":" + p) ==
      if s in instances then Ports([(s, p)]) else NotPresent
  {
    var name := DIRECT + s + ":" + p;
    assert name[..9] == DIRECT;
    assert name[9 + |s|] == ':';
    FindCharFirst(name, ':', 9);
    var i := FindChar(name, ':', 9);
    forall k | 9 <= k < 9 + |s|
      ensures name[k] != ':'
    {
      assert name[k] == s[k - 9];
    }
    assert i == 9 + |s|;
    assert name[9..i] == s;
    assert name[i + 1..] == p;
  }

  /** Any other name maps to its configured list, or to None when it has none. */
  lemma NamedMapping(instances: set<string>, computerToSwitch: map<string, seq<PortPair>>, name: string)
    requires !(|name| >= 9 && name[..9] == DIRECT)
    ensures name in computerToSwitch ==> PortMapping(instances, computerToSwitch, name) == Ports(computerToSwitch[name])
    ensures name !in computerToSwitch ==> PortMapping(instances, computerToSwitch, name) == NotPresent
  {
  }

  /** The states the loop of getPortStateBackend collects: one per pair whose switch has an instance. */
  function PortStates(instances: set<string>, pairs: seq<PortPair>, status: PortPair -> string): seq<string>
    decreases |pairs|
  {
    if |pairs| == 0 then []
    else
      var p := pairs[|pairs| - 1];
      PortStates(instances, pairs[..|pairs| - 1], status) + (if p.0 in instances then [status(p)] else [])
  }

  /** The collected states are exactly those of the pairs with a known switch. */
  lemma {:induction false} PortStatesMeaning(instances: set<string>, pairs: seq<PortPair>, status: PortPair -> string)
    ensures forall x :: x in PortStates(instances, pairs, status) <==>
      exists k :: 0 <= k < |pairs| && pairs[k].0 in instances && status(pairs[k]) == x
    ensures |PortStates(instances, pairs, status)| <= |pairs|
    decreases |pairs|
  {
    if |pairs| > 0 {
      var n := |pairs| - 1;
      PortStatesMeaning(instances, pairs[..n], status);
      assert forall k :: 0 <= k < n ==> pairs[..n][k] == pairs[k];
    }
  }

  /** What getPortStateBackend gives: the states, None for an unknown device, or the exception of getPortMapping. */
  datatype States = States(states: seq<string>) | NoDevice | StatesRaised

  /** The loop of getPortStateBackend over the mapped pairs. */
  method GetPortStateBackend(instances: set<string>, computerToSwitch: map<string, seq<PortPair>>, device: string,
                             status: PortPair -> string) returns (r: States)
    ensures PortMapping(instances, computerToSwitch, device).Ports? ==>
      r == States(PortStates(instances, PortMapping(instances, computerToSwitch, device).pairs, status))
    ensures PortMapping(instances, computerToSwitch, device).NotPresent? ==> r == NoDevice
    ensures PortMapping(instances, computerToSwitch, device).Raises? ==> r == StatesRaised
  {
    var m := PortMapping(instances, computerToSwitch, device);
    if m.Raises? {
      return StatesRaised;
    }
    if m.NotPresent? {
      return NoDevice;
    }
    var pairs := m.pairs;
    var state: seq<string> := [];
    for i := 0 to |pairs|
      invariant state == PortStates(instances, pairs[..i], status)
    {
      assert pairs[..i + 1][..i] == pairs[..i];
      if pairs[i].0 in instances {
        state := state + [status(pairs[i])];
      }
    }
    assert pairs[..|pairs|] == pairs;
    return States(state);
  }

  /** Every port whose switch is known reports the state. */
  predicate AllInState(instances: set<string>, pairs: seq<PortPair>, status: PortPair -> string, power: string)
  {
    forall k :: 0 <= k < |pairs| && pairs[k].0 in instances ==> status(pairs[k]) == power
  }

  /**
   * checkDevicePower: 1 when every reported state is the requested one,
   * else 0; None is the exception of iterating the None of an unknown
   * device (or of getPortMapping itself).
   */
  method CheckDevicePower(instances: set<string>, computerToSwitch: map<string, seq<PortPair>>, device: string,
                          power: string, status: PortPair -> string) returns (r: Option<int>)
    ensures r.Some? <==> PortMapping(instances, computerToSwitch, device).Ports?
    ensures r.Some? ==> (r.value == 1 || r.value == 0)
    ensures r == Some(1) <==> (PortMapping(instances, computerToSwitch, device).Ports? &&
      AllInState(instances, PortMapping(instances, computerToSwitch, device).pairs, status, power))
  {
    var st := GetPortStateBackend(instances, computerToSwitch, device, status);
    if !st.States? {
      return None;
    }
    var pairs := PortMapping(instances, computerToSwitch, device).pairs;
    PortStatesMeaning(instances, pairs, status);
    var states := st.states;
    for i := 0 to |states|
      invariant forall j :: 0 <= j < i ==> states[j] == power
    {
      if states[i] != power {
        assert states[i] in states;
        return Some(0);
      }
    }
    forall k | 0 <= k < |pairs| && pairs[k].0 in instances
      ensures status(pairs[k]) == power
    {
      assert status(pairs[k]) in states;
    }
    return Some(1);
  }

  // ---------------------------------------------------------------------
  // setPortStateBackend

  /** The call made on a power switch. */
  datatype Action = PowerOn(target: PortPair) | PowerOff(target: PortPair) | NoAction

  /** A reply (code, message) with the switch call made, or nothing: the None of an empty mapping or an exception. */
  datatype Reply = Reply(code: int, msg: string, action: Action) | NoReply

  const NOT_CONFIGURED: string := "Switch or port not configured properly"

  /** The check made before switching on: the first pair whose switch is unknown or at its limit. */
  function OnCheck(instances: set<string>, pairs: seq<PortPair>, overloaded: string -> bool): Option<string>
    decreases |pairs|
  {
    if |pairs| == 0 then None
    else if pairs[0].0 !in instances then Some(NOT_CONFIGURED)
    else if overloaded(pairs[0].0) then Some("Switch " + pairs[0].0 + " has already reached its maximum power")
    else OnCheck(instances, pairs[1..], overloaded)
  }

  /** The check passes exactly when every switch is known and below its limit. */
  lemma {:induction false} OnCheckMeaning(instances: set<string>, pairs: seq<PortPair>, overloaded: string -> bool)
    ensures OnCheck(instances, pairs, overloaded).None? <==>
      forall k :: 0 <= k < |pairs| ==> pairs[k].0 in instances && !overloaded(pairs[k].0)
    decreases |pairs|
  {
    if |pairs| > 0 {
      OnCheckMeaning(instances, pairs[1..], overloaded);
      assert forall k :: 1 <= k < |pairs| ==> pairs[k] == pairs[1..][k - 1];
    }
  }

  /** The first loop of setPortStateBackend, run for "on". */
  method CheckLimits(instances: set<string>, pairs: seq<PortPair>, overloaded: string -> bool) returns (r: Option<string>)
    ensures r == OnCheck(instances, pairs, overloaded)
  {
    var i := 0;
    while i < |pairs|
      invariant 0 <= i <= |pairs|
      invariant OnCheck(instances, pairs[i..], overloaded) == OnCheck(instances, pairs, overloaded)
    {
      assert pairs[i..][1..] == pairs[i + 1..];
      var (switchID, _) := pairs[i];
      if switchID !in instances {
        return Some(NOT_CONFIGURED);
      }
      if overloaded(switchID) {
        return Some("Switch " + switchID + " has already reached its maximum power");
      }
      i := i + 1;
    }
    return None;
  }

  /**
   * setPortStateBackend. status gives the state a port reports and
   * overloaded whether a switch's current is at its threshold (an error
   * while reading it counts as not).
   */
  method SetPortStateBackend(instances: set<string>, computerToSwitch: map<string, seq<PortPair>>, portname: string,
                             state: string, status: PortPair -> string, overloaded: string -> bool) returns (r: Reply)
    ensures PortMapping(instances, computerToSwitch, portname).NotPresent? ==>
      r == Reply(404, "Required port " + portname + "not present", NoAction)
    ensures PortMapping(instances, computerToSwitch, portname).Raises? ==> r == NoReply
    ensures var m := PortMapping(instances, computerToSwitch, portname);
      m.Ports? && state == "on" && OnCheck(instances, m.pairs, overloaded).Some? ==>
        r == Reply(404, OnCheck(instances, m.pairs, overloaded).value, NoAction)
    ensures var m := PortMapping(instances, computerToSwitch, portname);
      m.Ports? && (state != "on" || OnCheck(instances, m.pairs, overloaded).None?) ==>
        (|m.pairs| == 0 ==> r == NoReply) &&
        (|m.pairs| > 0 && m.pairs[0].0 !in instances ==> r == Reply(404, NOT_CONFIGURED, NoAction)) &&
        (|m.pairs| > 0 && m.pairs[0].0 in instances ==> r == FirstPortReply(m.pairs[0], state, status))
  {
    var toConfigure := PortMapping(instances, computerToSwitch, portname);
    if toConfigure.Raises? {
      return NoReply;
    }
    if toConfigure.NotPresent? {
      return Reply(404, "Required port " + portname + "not present", NoAction);
    }
    var pairs := toConfigure.pairs;
    if state == "on" {
      var problem := CheckLimits(instances, pairs, overloaded);
      if problem.Some? {
        return Reply(404, problem.value, NoAction);
      }
    }
    if |pairs| == 0 {
      return NoReply;
    }
    var (switchID, port) := pairs[0];
    if switchID !in instances {
      return Reply(404, NOT_CONFIGURED, NoAction);
    }
    var action := NoAction;
    if state == "on" {
      if status(pairs[0]) == "off" {
        action := PowerOn(pairs[0]);
      }
    } else if state == "off" {
      if status(pairs[0]) == "on" {
        action := PowerOff(pairs[0]);
      }
    } else if state != "restart" {
      return Reply(404, "Allowed actions for set_port_status are on, off and restart, you supplied: " + state, NoAction);
    }
    return Reply(200, "OK", action);
  }

  /** What happens at the first mapped port once its switch is known. */
  function FirstPortReply(p: PortPair, state: string, status: PortPair -> string): (r: Reply)
    ensures r.Reply?
    ensures r.code == 200 <==> state == "on" || state == "off" || state == "restart"
    ensures r.action.PowerOn? <==> state == "on" && status(p) == "off"
    ensures r.action.PowerOff? <==> state == "off" && status(p) == "on"
    ensures r.action != NoAction ==> r.action.target == p
  {
    if state == "on" then Reply(200, "OK", if status(p) == "off" then PowerOn(p) else NoAction)
    else if state == "off" then Reply(200, "OK", if status(p) == "on" then PowerOff(p) else NoAction)
    else if state == "restart" then Reply(200, "OK", NoAction)
    else Reply(404, "Allowed actions for set_port_status are on, off and restart, you supplied: " + state, NoAction)
  }

  // ---------------------------------------------------------------------
  // Configuration and the periodic check

  /** The pairs of a node whose power switch is registered, in order. */
  function KnownPairs(switches: set<string>, pairs: seq<PortPair>): (r: seq<PortPair>)
    ensures forall p :: p in r <==> p in pairs && p.0 in switches
    decreases |pairs|
  {
    if |pairs| == 0 then []
    else
      var n := |pairs| - 1;
      var rest := KnownPairs(switches, pairs[..n]);
      assert pairs == pairs[..n] + [pairs[n]];
      if pairs[n].0 in switches then rest + [pairs[n]] else rest
  }

  /** The devices of the boot phases, lowest phase first. */
  predicate Ascending(ids: seq<int>)
  {
    forall i, j :: 0 <= i < j < |ids| ==> ids[i] < ids[j]
  }

  class PowerControl {
    /** The ids in __switch: power switches, switches with power over ethernet, service processors. */
    var switches: set<string>
    /** The ids in __switchInstances, which a new configuration does not clear. */
    var instances: set<string>
    var computerToSwitch: map<string, seq<PortPair>>
    var configuredPortState: map<string, string>
    var phases: map<int, seq<string>>

    constructor ()
      ensures switches == {} && instances == {} && computerToSwitch == map[]
      ensures configuredPortState == map[] && phases == map[]
    {
      switches := {};
      instances := {};
      computerToSwitch := map[];
      configuredPortState := map[];
      phases := map[];
    }

    /**
     * The start of setConfigHandler: the tables are emptied and the power
     * switches, the switches whose "poe" attribute is "yes" and the service
     * processors are registered.
     */
    method BeginConfig(powerSwitches: seq<string>, poe: map<string, string>, serviceProcessors: seq<string>)
      modifies this
      ensures forall x :: x in switches <==> x in powerSwitches || (x in poe && poe[x] == "yes") || x in serviceProcessors
      ensures instances == old(instances) + switches
      ensures computerToSwitch == map[] && configuredPortState == map[] && phases == map[]
    {
      var reg := AddAll({}, powerSwitches);
      reg := AddPoe(reg, poe);
      reg := AddAll(reg, serviceProcessors);
      switches := reg;
      instances := instances + reg;
      computerToSwitch := map[];
      configuredPortState := map[];
      phases := map[];
    }

    /** The loop of configureNode over the power ports: each pair on a known switch joins the node's list. */
    method AddKnownPairs(nodeID: string, pn: seq<PortPair>) returns (c2s: map<string, seq<PortPair>>)
      ensures c2s == Appended(computerToSwitch, nodeID, KnownPairs(switches, pn))
    {
      c2s := computerToSwitch;
      for i := 0 to |pn|
        invariant c2s == Appended(computerToSwitch, nodeID, KnownPairs(switches, pn[..i]))
      {
        assert pn[..i + 1][..i] == pn[..i] && pn[..i + 1][i] == pn[i];
        assert KnownPairs(switches, pn[..i + 1]) ==
          KnownPairs(switches, pn[..i]) + (if pn[i].0 in switches then [pn[i]] else []);
        var (switch, port) := pn[i];
        if switch !in switches {
          continue;
        }
        AppendedSnoc(computerToSwitch, nodeID, KnownPairs(switches, pn[..i]), (switch, port));
        if nodeID !in c2s {
          assert [] + [(switch, port)] == [(switch, port)];
          c2s := c2s[nodeID := [(switch, port)]];
        } else {
          c2s := c2s[nodeID := c2s[nodeID] + [(switch, port)]];
        }
      }
      assert pn[..|pn|] == pn;
    }

    /**
     * The loop body of setConfigHandler for one node: its pairs with a
     * registered switch are appended to its mapping, then its
     * "enforce_power_state" attribute is recorded; "on" also puts it in its
     * phase ("phase" attribute, default 100). false is the exception of a
     * phase atoi cannot read, which ends the configuration.
     */
    method ConfigureNode(nodeID: string, powerNodes: Option<seq<PortPair>>, attributes: Option<map<string, string>>)
      returns (ok: bool)
      modifies this
      ensures switches == old(switches) && instances == old(instances)
      ensures powerNodes.None? ==>
        ok && computerToSwitch == old(computerToSwitch) && configuredPortState == old(configuredPortState) && phases == old(phases)
      ensures powerNodes.Some? ==> computerToSwitch == Appended(old(computerToSwitch), nodeID, KnownPairs(switches, powerNodes.value))
      ensures powerNodes.Some? ==> EnforcedState(old(configuredPortState), old(phases), nodeID, attributes, ok, configuredPortState, phases)
    {
      if powerNodes.None? {
        return true;
      }
      var c2s := AddKnownPairs(nodeID, powerNodes.value);
      computerToSwitch := c2s;
      ok := EnforcePowerState(nodeID, attributes);
    }

    /**
     * The enforce_power_state handling of configureNode: the attribute's
     * value is recorded for the node, and "on" appends the node to its phase.
     */
    method EnforcePowerState(nodeID: string, attributes: Option<map<string, string>>) returns (ok: bool)
      modifies this
      ensures switches == old(switches) && instances == old(instances) && computerToSwitch == old(computerToSwitch)
      ensures EnforcedState(old(configuredPortState), old(phases), nodeID, attributes, ok, configuredPortState, phases)
    {
      ok := true;
      if attributes.Some? && "enforce_power_state" in attributes.value {
        var attrs := attributes.value;
        var power := attrs["enforce_power_state"];
        configuredPortState := configuredPortState[nodeID := power];
        if power == "on" {
          var phase := 100;
          if "phase" in attrs {
            var parsed := ParseInt(attrs["phase"]);
            if parsed.None? {
              return false;
            }
            phase := parsed.value;
          }
          if phase in phases {
            phases := phases[phase := phases[phase] + [nodeID]];
          } else {
            assert [] + [nodeID] == [nodeID];
            phases := phases[phase := [nodeID]];
          }
        }
      }
    }

    /** The phases in ascending order, the order checkPowerState walks them in. */
    method PhaseOrder() returns (ids: seq<int>)
      ensures Ascending(ids)
      ensures forall p :: p in ids <==> p in phases
    {
      var keys: seq<int> := [];
      var todo := phases.Keys;
      while true
        invariant todo <= phases.Keys
        invariant forall p :: p in keys <==> p in phases && p !in todo
        invariant forall i, j :: 0 <= i < j < |keys| ==> keys[i] != keys[j]
        decreases |todo|
      {
        if p :| p in todo {
          keys := keys + [p];
          todo := todo - {p};
        } else {
          break;
        }
      }
      ids := SortInts(keys);
      SortIntsMeaning(keys);
      forall p
        ensures p in ids <==> p in keys
      {
        assert p in ids <==> p in multiset(ids);
        assert p in keys <==> p in multiset(keys);
      }
      DistinctSorted(keys, ids);
    }

    /**
     * One pass of checkPowerState. check answers checkDevicePower (None
     * that it raised); order is the order of the configured devices. The
     * requests and whether a check raised are those of PowerPass, walking
     * the phases in ascending order.
     */
    method CheckPowerState(order: seq<string>, check: (string, string) -> Option<int>)
      returns (requests: seq<(string, string)>, raised: bool)
      requires forall d :: d in order <==> d in configuredPortState
      ensures exists ids :: PhaseIds(phases, ids) &&
                            (requests, raised) == PowerPass(configuredPortState, order, phases, ids, check)
    {
      var off := CheckOff(order, check);
      var ids := PhaseOrder();
      assert PhaseIds(phases, ids);
      if off.1 {
        assert (off.0, true) == PowerPass(configuredPortState, order, phases, ids, check);
        return off.0, true;
      }
      ghost var on: seq<(string, string)> := [];
      requests := off.0;
      assert ids[0..] == ids && [] + OnPass(phases, ids, check).0 == OnPass(phases, ids, check).0;
      for k := 0 to |ids|
        invariant requests == off.0 + on
        invariant OnPass(phases, ids, check) == Joined(on, OnPass(phases, ids[k..], check))
      {
        OnPassFrom(phases, ids, k, check);
        var first := FirstOnIn(phases[ids[k]], check);
        if first.1 {
          FirstOnMeaning(phases[ids[k]], check);
          assert on + [] == on;
          assert (requests, true) == PowerPass(configuredPortState, order, phases, ids, check);
          return requests, true;
        }
        JoinedJoined(on, first.0, OnPass(phases, ids[k + 1..], check));
        on := on + first.0;
        requests := requests + first.0;
      }
      assert ids[|ids|..] == [] && on + [] == on;
      assert (requests, false) == PowerPass(configuredPortState, order, phases, ids, check);
      raised := false;
    }

    /** The first loop of checkPowerState: the first device not configured on whose check says it is not off. */
    method CheckOff(order: seq<string>, check: (string, string) -> Option<int>) returns (r: (seq<(string, string)>, bool))
      requires forall d :: d in order ==> d in configuredPortState
      ensures r == OffPass(configuredPortState, order, check)
    {
      for i := 0 to |order|
        invariant OffPass(configuredPortState, order, check) == OffPass(configuredPortState, order[i..], check)
      {
        assert order[i..][0] == order[i] && order[i..][1..] == order[i + 1..];
        var device := order[i];
        if configuredPortState[device] == "on" {
          continue;
        }
        var c := check(device, "off");
        if c.None? {
          return ([], true);
        }
        if c.value == 0 {
          return ([(device, "off")], false);
        }
      }
      return ([], false);
    }
  }

  /** The inner loop of checkPowerState over one phase: the first device whose check says it is not on. */
  method FirstOnIn(devices: seq<string>, check: (string, string) -> Option<int>) returns (r: (seq<(string, string)>, bool))
    ensures r == FirstOn(devices, check)
  {
    for j := 0 to |devices|
      invariant FirstOn(devices, check) == FirstOn(devices[j..], check)
    {
      assert devices[j..][0] == devices[j] && devices[j..][1..] == devices[j + 1..];
      var c := check(devices[j], "on");
      if c.None? {
        return ([], true);
      }
      if c.value == 0 {
        return ([(devices[j], "on")], false);
      }
    }
    return ([], false);
  }

  /** The phase ids as checkPowerState walks them: every configured phase once, ascending. */
  ghost predicate PhaseIds(phases: map<int, seq<string>>, ids: seq<int>)
  {
    Ascending(ids) && forall p :: p in ids <==> p in phases
  }

  /** The requests r and then those of the outcome o, with o's raise. */
  function Joined(r: seq<(string, string)>, o: (seq<(string, string)>, bool)): (seq<(string, string)>, bool)
  {
    (r + o.0, o.1)
  }

  /**
   * The off loop of checkPowerState over order: the (device, "off") request
   * it makes, at most one, and whether a check raised (then nothing was requested).
   */
  function OffPass(conf: map<string, string>, order: seq<string>, check: (string, string) -> Option<int>)
    : (seq<(string, string)>, bool)
    requires forall d :: d in order ==> d in conf
  {
    if |order| == 0 then ([], false)
    else if conf[order[0]] == "on" then OffPass(conf, order[1..], check)
    else if check(order[0], "off").None? then ([], true)
    else if check(order[0], "off").value == 0 then ([(order[0], "off")], false)
    else OffPass(conf, order[1..], check)
  }

  /** The inner loop over one phase's devices: at most one (device, "on") request, and whether a check raised. */
  function FirstOn(devices: seq<string>, check: (string, string) -> Option<int>): (seq<(string, string)>, bool)
  {
    if |devices| == 0 then ([], false)
    else if check(devices[0], "on").None? then ([], true)
    else if check(devices[0], "on").value == 0 then ([(devices[0], "on")], false)
    else FirstOn(devices[1..], check)
  }

  /** The phase loop over ids: each phase's request in turn, stopping at the first raise. */
  function OnPass(phases: map<int, seq<string>>, ids: seq<int>, check: (string, string) -> Option<int>)
    : (seq<(string, string)>, bool)
    requires forall p :: p in ids ==> p in phases
  {
    if |ids| == 0 then ([], false)
    else
      var p := ids[0];
      assert p in ids by { assert ids[0] == p; }
      var first := FirstOn(phases[p], check);
      if first.1 then first else Joined(first.0, OnPass(phases, ids[1..], check))
  }

  /** The phase loop from index k: phase ids[k]'s request, then the rest unless it raised. */
  lemma OnPassFrom(phases: map<int, seq<string>>, ids: seq<int>, k: int, check: (string, string) -> Option<int>)
    requires forall p :: p in ids ==> p in phases
    requires 0 <= k < |ids|
    ensures ids[k] in phases
    ensures var first := FirstOn(phases[ids[k]], check);
      OnPass(phases, ids[k..], check) == if first.1 then first else Joined(first.0, OnPass(phases, ids[k + 1..], check))
  {
    assert ids[k..][0] == ids[k] && ids[k..][1..] == ids[k + 1..];
    assert ids[k] in ids;
  }

  /** Requests joined in two steps are the requests joined at once. */
  lemma JoinedJoined(a: seq<(string, string)>, b: seq<(string, string)>, o: (seq<(string, string)>, bool))
    ensures Joined(a, Joined(b, o)) == Joined(a + b, o)
  {
    assert a + (b + o.0) == a + b + o.0;
  }

  /** One pass of checkPowerState: the off loop, then, unless it raised, the phase loop. */
  function PowerPass(conf: map<string, string>, order: seq<string>, phases: map<int, seq<string>>, ids: seq<int>,
                     check: (string, string) -> Option<int>): (seq<(string, string)>, bool)
    requires forall d :: d in order ==> d in conf
    requires forall p :: p in ids ==> p in phases
  {
    var off := OffPass(conf, order, check);
    if off.1 then off else Joined(off.0, OnPass(phases, ids, check))
  }

  /** A check that answered and found the device in the state. */
  predicate Passes(check: (string, string) -> Option<int>, d: string, state: string)
  {
    check(d, state).Some? && check(d, state).value != 0
  }

  /**
   * The off request is the first device of order not configured on whose
   * check says it is not off, every device before it being off already; a
   * raise comes from the first unanswered check; no request means every
   * device not configured on is off.
   */
  lemma {:induction false} OffPassMeaning(conf: map<string, string>, order: seq<string>, check: (string, string) -> Option<int>)
    requires forall d :: d in order ==> d in conf
    ensures var r := OffPass(conf, order, check);
      |r.0| <= 1 && (r.1 ==> r.0 == []) &&
      (r.0 == [] && !r.1 <==> forall i :: 0 <= i < |order| && conf[order[i]] != "on" ==> Passes(check, order[i], "off")) &&
      (r.0 != [] ==>
         exists j :: 0 <= j < |order| && r.0[0] == (order[j], "off") && conf[order[j]] != "on" &&
           check(order[j], "off") == Some(0) &&
           forall i :: 0 <= i < j && conf[order[i]] != "on" ==> Passes(check, order[i], "off")) &&
      (r.1 ==>
         exists j :: 0 <= j < |order| && conf[order[j]] != "on" && check(order[j], "off").None? &&
           forall i :: 0 <= i < j && conf[order[i]] != "on" ==> Passes(check, order[i], "off"))
    decreases |order|
  {
    if |order| > 0 {
      OffPassMeaning(conf, order[1..], check);
      var r := OffPass(conf, order, check);
      var t := OffPass(conf, order[1..], check);
      if conf[order[0]] == "on" || Passes(check, order[0], "off") {
        assert r == t;
        if r.0 != [] {
          var j :| 0 <= j < |order[1..]| && t.0[0] == (order[1..][j], "off") && conf[order[1..][j]] != "on" &&
            check(order[1..][j], "off") == Some(0) &&
            forall i :: 0 <= i < j && conf[order[1..][i]] != "on" ==> Passes(check, order[1..][i], "off");
          OffShift(conf, order, check, j);
        }
        if r.1 {
          var j :| 0 <= j < |order[1..]| && conf[order[1..][j]] != "on" && check(order[1..][j], "off").None? &&
            forall i :: 0 <= i < j && conf[order[1..][i]] != "on" ==> Passes(check, order[1..][i], "off");
          OffShift(conf, order, check, j);
        }
        if r.0 == [] && !r.1 {
          OffShift(conf, order, check, |order| - 1);
        }
      }
    }
  }

  /** A device that is on or answers off in front of order extends the devices answering off by one. */
  lemma OffShift(conf: map<string, string>, order: seq<string>, check: (string, string) -> Option<int>, j: int)
    requires forall d :: d in order ==> d in conf
    requires 0 <= j < |order|
    requires conf[order[0]] == "on" || Passes(check, order[0], "off")
    requires forall i :: 0 <= i < j && conf[order[1..][i]] != "on" ==> Passes(check, order[1..][i], "off")
    ensures forall i :: 0 <= i < j + 1 && conf[order[i]] != "on" ==> Passes(check, order[i], "off")
  {
    forall i | 0 < i < j + 1
      ensures order[i] == order[1..][i - 1]
    {
    }
  }

  /**
   * The request of one phase is its first device whose check says it is not
   * on, every device before it being on already; a raise comes from the
   * first unanswered check; no request means every device is on.
   */
  lemma {:induction false} FirstOnMeaning(devices: seq<string>, check: (string, string) -> Option<int>)
    ensures var r := FirstOn(devices, check);
      |r.0| <= 1 && (r.1 ==> r.0 == []) &&
      (r.0 == [] && !r.1 <==> forall i :: 0 <= i < |devices| ==> Passes(check, devices[i], "on")) &&
      (r.0 != [] ==>
         exists j :: 0 <= j < |devices| && r.0[0] == (devices[j], "on") &&
           check(devices[j], "on") == Some(0) && forall i :: 0 <= i < j ==> Passes(check, devices[i], "on")) &&
      (r.1 ==>
         exists j :: 0 <= j < |devices| && check(devices[j], "on").None? &&
           forall i :: 0 <= i < j ==> Passes(check, devices[i], "on"))
    decreases |devices|
  {
    if |devices| > 0 {
      FirstOnMeaning(devices[1..], check);
      var r := FirstOn(devices, check);
      var t := FirstOn(devices[1..], check);
      if Passes(check, devices[0], "on") {
        assert r == t;
        if r.0 != [] {
          var j :| 0 <= j < |devices[1..]| && t.0[0] == (devices[1..][j], "on") &&
            check(devices[1..][j], "on") == Some(0) && forall i :: 0 <= i < j ==> Passes(check, devices[1..][i], "on");
          assert forall i :: 0 <= i < j + 1 ==> Passes(check, devices[i], "on") by {
            forall i | 0 < i < j + 1 ensures devices[i] == devices[1..][i - 1] { }
          }
        }
        if r.1 {
          var j :| 0 <= j < |devices[1..]| && check(devices[1..][j], "on").None? &&
            forall i :: 0 <= i < j ==> Passes(check, devices[1..][i], "on");
          assert forall i :: 0 <= i < j + 1 ==> Passes(check, devices[i], "on") by {
            forall i | 0 < i < j + 1 ensures devices[i] == devices[1..][i - 1] { }
          }
        }
        if r.0 == [] && !r.1 {
          forall i | 0 < i < |devices| ensures devices[i] == devices[1..][i - 1] { }
        }
      }
    }
  }

  /**
   * Without a raise, the phase loop makes exactly one request per phase that
   * has a device not on, that phase's own request, in the order of ids.
   */
  lemma {:induction false} OnPassMeaning(phases: map<int, seq<string>>, ids: seq<int>, check: (string, string) -> Option<int>)
    requires forall p :: p in ids ==> p in phases
    requires !OnPass(phases, ids, check).1
    ensures OnPass(phases, ids, check).0 == OnRequests(phases, ids, check)
    ensures forall k :: 0 <= k < |ids| ==> !FirstOn(phases[ids[k]], check).1
    decreases |ids|
  {
    if |ids| > 0 {
      OnPassMeaning(phases, ids[1..], check);
      forall k | 0 < k < |ids| ensures ids[k] == ids[1..][k - 1] { }
    }
  }

  /** The requests of the phases of ids, each phase's first device not on, in the order of ids. */
  function OnRequests(phases: map<int, seq<string>>, ids: seq<int>, check: (string, string) -> Option<int>)
    : seq<(string, string)>
    requires forall p :: p in ids ==> p in phases
  {
    if |ids| == 0 then []
    else
      var p := ids[0];
      assert p in ids by { assert ids[0] == p; }
      FirstOn(phases[p], check).0 + OnRequests(phases, ids[1..], check)
  }

  /** There is one order of the phases checkPowerState can walk: the ascending one is unique. */
  lemma {:induction false} PhaseIdsUnique(phases: map<int, seq<string>>, a: seq<int>, b: seq<int>)
    requires PhaseIds(phases, a) && PhaseIds(phases, b)
    ensures a == b
  {
    AscendingUnique(a, b);
  }

  lemma {:induction false} AscendingUnique(a: seq<int>, b: seq<int>)
    requires Ascending(a) && Ascending(b)
    requires forall p :: p in a <==> p in b
    ensures a == b
    decreases |a|
  {
    if |a| > 0 {
      var x := a[0];
      assert x in a by { assert a[0] == x; }
    }
    if |b| > 0 {
      var x := b[0];
      assert x in b by { assert b[0] == x; }
    }
    if |a| > 0 && |b| > 0 {
      AscendingLeast(a, b[0]);
      AscendingLeast(b, a[0]);
      forall p
        ensures p in a[1..] <==> p in b[1..]
      {
        if p in a[1..] {
          TailMember(a, b, p);
        }
        if p in b[1..] {
          TailMember(b, a, p);
        }
      }
      AscendingUnique(a[1..], b[1..]);
      assert a == [a[0]] + a[1..] && b == [b[0]] + b[1..];
    }
  }

  /** The first element of an ascending list is its least. */
  lemma AscendingLeast(a: seq<int>, x: int)
    requires Ascending(a) && x in a
    ensures a[0] <= x
  {
    var j :| 0 <= j < |a| && a[j] == x;
    if j > 0 {
      assert a[0] < a[j];
    }
  }

  /** A later element of one list is a later element of the other, when both start alike. */
  lemma TailMember(a: seq<int>, b: seq<int>, p: int)
    requires Ascending(a) && Ascending(b) && |a| > 0 && |b| > 0 && a[0] == b[0]
    requires forall q :: q in a <==> q in b
    requires p in a[1..]
    ensures p in b[1..]
  {
    var i :| 0 <= i < |a[1..]| && a[1..][i] == p;
    assert a[i + 1] == p && a[0] < a[i + 1];
    assert p in a;
    var k :| 0 <= k < |b| && b[k] == p;
    assert k != 0;
    assert b[1..][k - 1] == p;
  }


  /** Registers every id of a list. */
  method AddAll(reg: set<string>, ids: seq<string>) returns (r: set<string>)
    ensures forall x :: x in r <==> x in reg || x in ids
  {
    r := reg;
    for i := 0 to |ids|
      invariant forall x :: x in r <==> x in reg || x in ids[..i]
    {
      assert ids[..i + 1] == ids[..i] + [ids[i]];
      r := r + {ids[i]};
    }
    assert ids[..|ids|] == ids;
  }

  /** Registers the switches that supply power over ethernet. */
  method AddPoe(reg: set<string>, poe: map<string, string>) returns (r: set<string>)
    ensures forall x :: x in r <==> x in reg || (x in poe && poe[x] == "yes")
  {
    r := reg;
    var todo := poe.Keys;
    while todo != {}
      invariant todo <= poe.Keys
      invariant forall x :: x in r <==> x in reg || (x in poe && x !in todo && poe[x] == "yes")
      decreases |todo|
    {
      var k :| k in todo;
      if poe[k] == "yes" {
        r := r + {k};
      }
      todo := todo - {k};
    }
  }

  /** A mapping with the pairs appended under the node, created only when there is one. */
  function Appended(c2s: map<string, seq<PortPair>>, node: string, pairs: seq<PortPair>): map<string, seq<PortPair>>
  {
    if |pairs| == 0 then c2s
    else c2s[node := (if node in c2s then c2s[node] else []) + pairs]
  }

  lemma AppendedSnoc(c2s: map<string, seq<PortPair>>, node: string, pairs: seq<PortPair>, p: PortPair)
    ensures var a := Appended(c2s, node, pairs);
      Appended(c2s, node, pairs + [p]) == a[node := (if node in a then a[node] else []) + [p]]
  {
    var base := if node in c2s then c2s[node] else [];
    if |pairs| > 0 {
      assert base + (pairs + [p]) == (base + pairs) + [p];
    } else {
      assert pairs + [p] == [p];
    }
  }

  /**
   * What the enforce_power_state handling leaves: the attribute's value
   * recorded for the node whatever it is; for "on", the node appended to
   * its phase, unless the phase cannot be read (ok false).
   */
  ghost predicate EnforcedState(conf0: map<string, string>, phases0: map<int, seq<string>>, node: string,
                                attributes: Option<map<string, string>>, ok: bool,
                                conf: map<string, string>, phases: map<int, seq<string>>)
  {
    if attributes.None? || "enforce_power_state" !in attributes.value then ok && conf == conf0 && phases == phases0
    else
      var attrs := attributes.value;
      var power := attrs["enforce_power_state"];
      conf == conf0[node := power] &&
      if power != "on" then ok && phases == phases0
      else
        var phase := if "phase" in attrs then ParseInt(attrs["phase"]) else Some(100);
        if phase.None? then !ok && phases == phases0
        else ok && phases == phases0[phase.value := (if phase.value in phases0 then phases0[phase.value] else []) + [node]]
  }

  /** Sorting distinct numbers gives a strictly ascending list. */
  lemma DistinctSorted(keys: seq<int>, ids: seq<int>)
    requires forall i, j :: 0 <= i < j < |keys| ==> keys[i] != keys[j]
    requires SortedInts(ids) && multiset(ids) == multiset(keys)
    ensures Ascending(ids)
  {
    forall i, j | 0 <= i < j < |ids|
      ensures ids[i] < ids[j]
    {
      if ids[i] == ids[j] {
        DistinctCount(keys, ids[i]);
        assert multiset(ids)[ids[i]] >= 2 by {
          TwoInMultiset(ids, i, j);
        }
      }
    }
  }

  lemma {:induction false} DistinctCount(keys: seq<int>, x: int)
    requires forall i, j :: 0 <= i < j < |keys| ==> keys[i] != keys[j]
    ensures multiset(keys)[x] <= 1
    decreases |keys|
  {
    if |keys| > 0 {
      var n := |keys| - 1;
      assert keys == keys[..n] + [keys[n]];
      DistinctCount(keys[..n], x);
      if keys[n] == x {
        assert x !in keys[..n];
      }
    }
  }

  lemma TwoInMultiset(s: seq<int>, i: int, j: int)
    requires 0 <= i < j < |s| && s[i] == s[j]
    ensures multiset(s)[s[i]] >= 2
  {
    assert s == s[..j] + [s[j]] + s[j + 1..];
    assert s[i] in s[..j];
    assert multiset(s) == multiset(s[..j]) + multiset{s[j]} + multiset(s[j + 1..]);
  }
}
