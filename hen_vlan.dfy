// The VLAN, Port and VlanOwner classes of lib/auxiliary/hen.py: the per-switch
// port lists of a vlan, kept as sets keyed on port number, and the one-line
// file form of a vlan's owner.

module HenVlan {
  import opened Common

  /** A port number as the drivers store it: an integer, or an interface name. */
  datatype PortNumber = Num(n: int) | Name(s: string)

  /** hen.Port. Datatype equality is Port.__eq__: all three fields are compared. */
  datatype Port = Port(number: PortNumber, tagged: bool, internalId: int)

  /** The exceptions the methods below can raise. */
  datatype PyError = AttributeError | TypeError | ValueError | IndexError | KeyError

  datatype Status = Ok | Raised(error: PyError)

  // ---------------------------------------------------------------------
  // Port lists

  /** Some port of the list has the number n. */
  predicate HasNumber(list: seq<Port>, n: PortNumber)
  {
    exists q :: q in list && q.number == n
  }

  /** No two ports of the list share a number. */
  predicate DistinctNumbers(list: seq<Port>)
  {
    forall i, j :: 0 <= i < j < |list| ==> list[i].number != list[j].number
  }

  /** VLAN.__isPortInList: the scan matches on the port number only. */
  method IsPortInList(port: Port, list: seq<Port>) returns (found: bool)
    ensures found <==> HasNumber(list, port.number)
  {
    for i := 0 to |list|
      invariant !HasNumber(list[..i], port.number)
    {
      if list[i].number == port.number {
        assert list[i] in list;
        return true;
      }
      assert list[..i + 1] == list[..i] + [list[i]];
    }
    assert list[..|list|] == list;
    return false;
  }

  /** The list addPorts leaves: each port in turn is appended unless a port with its number is already there. */
  function AddMissing(list: seq<Port>, ports: seq<Port>): seq<Port>
    decreases |ports|
  {
    if |ports| == 0 then list
    else
      var before := AddMissing(list, ports[..|ports| - 1]);
      var p := ports[|ports| - 1];
      if HasNumber(before, p.number) then before else before + [p]
  }

  /** addPorts only appends: the old list is a prefix of the new one. */
  lemma {:induction false} AddMissingKeepsList(list: seq<Port>, ports: seq<Port>)
    ensures |list| <= |AddMissing(list, ports)|
    ensures AddMissing(list, ports)[..|list|] == list
    decreases |ports|
  {
    if |ports| > 0 {
      AddMissingKeepsList(list, ports[..|ports| - 1]);
    }
  }

  /** After addPorts every given port number is on the switch. */
  lemma {:induction false} AddMissingCoversPorts(list: seq<Port>, ports: seq<Port>)
    ensures forall p :: p in ports ==> HasNumber(AddMissing(list, ports), p.number)
    decreases |ports|
  {
    if |ports| > 0 {
      var init := ports[..|ports| - 1];
      var before := AddMissing(list, init);
      var last := ports[|ports| - 1];
      AddMissingCoversPorts(list, init);
      forall p | p in ports
        ensures HasNumber(AddMissing(list, ports), p.number)
      {
        if p == last {
          if !HasNumber(before, last.number) {
            assert (before + [last])[|before|] == last;
          }
        } else {
          assert p in init by {
            var k :| 0 <= k < |ports| && ports[k] == p;
            assert init[k] == p;
          }
          var q :| q in before && q.number == p.number;
          assert q in AddMissing(list, ports);
        }
      }
    }
  }

  /**
   * addPorts appends only given ports, and never one whose number is already
   * on the switch, counting the ports appended earlier in the same call.
   */
  lemma {:induction false} AddMissingAppendsOnlyNew(list: seq<Port>, ports: seq<Port>)
    ensures forall k :: |list| <= k < |AddMissing(list, ports)| ==>
      AddMissing(list, ports)[k] in ports &&
      !HasNumber(AddMissing(list, ports)[..k], AddMissing(list, ports)[k].number)
    decreases |ports|
  {
    if |ports| > 0 {
      var init := ports[..|ports| - 1];
      var before := AddMissing(list, init);
      var last := ports[|ports| - 1];
      var r := AddMissing(list, ports);
      AddMissingAppendsOnlyNew(list, init);
      AddMissingKeepsList(list, init);
      forall k | |list| <= k < |r|
        ensures r[k] in ports && !HasNumber(r[..k], r[k].number)
      {
        if k < |before| {
          assert r[k] == before[k] && r[..k] == before[..k];
          assert before[k] in init;
          var j :| 0 <= j < |init| && init[j] == before[k];
          assert ports[j] == before[k];
        } else {
          assert r == before + [last] && r[..k] == before;
        }
      }
    }
  }

  /** addPorts keeps the numbers on a switch distinct. */
  lemma AddMissingKeepsDistinct(list: seq<Port>, ports: seq<Port>)
    requires DistinctNumbers(list)
    ensures DistinctNumbers(AddMissing(list, ports))
  {
    var r := AddMissing(list, ports);
    AddMissingKeepsList(list, ports);
    AddMissingAppendsOnlyNew(list, ports);
    forall i, j | 0 <= i < j < |r|
      ensures r[i].number != r[j].number
    {
      if j >= |list| {
        assert r[i] in r[..j];
      } else {
        assert r[i] == list[i] && r[j] == list[j];
      }
    }
  }

  /** list.remove(x): drops the first element equal to x (all fields compared). */
  function RemoveFirst(s: seq<Port>, x: Port): seq<Port>
    requires x in s
  {
    if s[0] == x then s[1..] else [s[0]] + RemoveFirst(s[1..], x)
  }

  /** The list without the ports numbered n. */
  function FilterOut(s: seq<Port>, n: PortNumber): seq<Port>
  {
    if |s| == 0 then []
    else (if s[0].number == n then [] else [s[0]]) + FilterOut(s[1..], n)
  }

  /** On a list with distinct numbers, removing a member drops exactly the ports with its number. */
  lemma {:induction false} RemoveFirstIsFilter(s: seq<Port>, x: Port)
    requires DistinctNumbers(s) && x in s
    ensures RemoveFirst(s, x) == FilterOut(s, x.number)
  {
    if s[0] == x {
      forall k | 0 <= k < |s[1..]|
        ensures s[1..][k].number != x.number
      {
        assert s[1..][k] == s[k + 1];
      }
      FilterOutNone(s[1..], x.number);
    } else {
      assert s[0].number != x.number by {
        var k :| 0 <= k < |s| && s[k] == x;
        assert k > 0;
      }
      assert DistinctNumbers(s[1..]) by {
        assert forall i, j :: 0 <= i < j < |s[1..]| ==> s[1..][i] == s[i + 1] && s[1..][j] == s[j + 1];
      }
      RemoveFirstIsFilter(s[1..], x);
    }
  }

  lemma {:induction false} FilterOutNone(s: seq<Port>, n: PortNumber)
    requires forall k :: 0 <= k < |s| ==> s[k].number != n
    ensures FilterOut(s, n) == s
  {
    if |s| > 0 {
      FilterOutNone(s[1..], n);
    }
  }

  /** The outcome of deletePorts on one list: the list left, and whether list.remove raised. */
  datatype Removal = Removal(rest: seq<Port>, failed: bool)

  /**
   * deletePorts as written: for each port whose number is in the list,
   * list.remove(port), which raises ValueError when no element equals the
   * port in all three fields; the loop stops at the first such port.
   */
  function RemovePorts(list: seq<Port>, ports: seq<Port>): Removal
    decreases |ports|
  {
    if |ports| == 0 then Removal(list, false)
    else
      var prev := RemovePorts(list, ports[..|ports| - 1]);
      var p := ports[|ports| - 1];
      if prev.failed || !HasNumber(prev.rest, p.number) then prev
      else if p in prev.rest then Removal(RemoveFirst(prev.rest, p), false)
      else Removal(prev.rest, true)
  }

  /** The evidently intended deletePorts: every port numbered like a given one goes. */
  function RemoveNumbers(list: seq<Port>, ports: seq<Port>): seq<Port>
  {
    if |list| == 0 then []
    else (if HasNumber(ports, list[0].number) then [] else [list[0]]) + RemoveNumbers(list[1..], ports)
  }

  /** A port stays exactly when it was there and no given port has its number. */
  lemma {:induction false} RemoveNumbersMeaning(list: seq<Port>, ports: seq<Port>, q: Port)
    ensures q in RemoveNumbers(list, ports) <==> q in list && !HasNumber(ports, q.number)
  {
    if |list| > 0 {
      RemoveNumbersMeaning(list[1..], ports, q);
      assert list == [list[0]] + list[1..];
    }
  }

  /** Deleting one more port filters its number out of the corrected result. */
  lemma {:induction false} RemoveNumbersSnoc(list: seq<Port>, ports: seq<Port>, p: Port)
    ensures RemoveNumbers(list, ports + [p]) == FilterOut(RemoveNumbers(list, ports), p.number)
  {
    if |list| > 0 {
      RemoveNumbersSnoc(list[1..], ports, p);
      var n := list[0].number;
      assert HasNumber(ports + [p], n) <==> HasNumber(ports, n) || p.number == n by {
        if p.number == n {
          assert (ports + [p])[|ports|] == p;
        }
        if HasNumber(ports, n) {
          var q :| q in ports && q.number == n;
          assert q in ports + [p];
        }
      }
      FilterOutAppend(if HasNumber(ports, n) then [] else [list[0]], RemoveNumbers(list[1..], ports), p.number);
    }
  }

  lemma {:induction false} FilterOutAppend(a: seq<Port>, b: seq<Port>, n: PortNumber)
    ensures FilterOut(a + b, n) == FilterOut(a, n) + FilterOut(b, n)
  {
    if |a| > 0 {
      FilterOutAppend(a[1..], b, n);
      assert (a + b)[1..] == a[1..] + b;
    } else {
      assert a + b == b;
    }
  }

  /** The corrected result filters the old list; it keeps distinct numbers distinct. */
  lemma {:induction false} FilterOutKeepsDistinct(s: seq<Port>, n: PortNumber)
    requires DistinctNumbers(s)
    ensures DistinctNumbers(FilterOut(s, n))
    ensures forall q :: q in FilterOut(s, n) ==> q in s && q.number != n
  {
    if |s| > 0 {
      assert DistinctNumbers(s[1..]) by {
        assert forall i, j :: 0 <= i < j < |s[1..]| ==> s[1..][i] == s[i + 1] && s[1..][j] == s[j + 1];
      }
      FilterOutKeepsDistinct(s[1..], n);
      var t := FilterOut(s[1..], n);
      forall q | q in t
        ensures q.number != s[0].number
      {
        var k :| 0 <= k < |s[1..]| && s[1..][k] == q;
        assert s[k + 1] == q;
      }
    }
  }

  /** With the number lookup on the same list, the first removal that cannot raise is the filter. */
  lemma FilterStep(s: seq<Port>, p: Port)
    requires DistinctNumbers(s)
    ensures !HasNumber(s, p.number) ==> FilterOut(s, p.number) == s
    ensures p in s ==> RemoveFirst(s, p) == FilterOut(s, p.number)
  {
    if !HasNumber(s, p.number) {
      assert forall k :: 0 <= k < |s| ==> s[k] in s;
      FilterOutNone(s, p.number);
    }
    if p in s {
      RemoveFirstIsFilter(s, p);
    }
  }

  /**
   * On a list with distinct numbers (which addPorts keeps), a deletePorts
   * that does not raise leaves exactly the corrected result.
   */
  lemma {:induction false} RemovePortsAgrees(list: seq<Port>, ports: seq<Port>)
    requires DistinctNumbers(list)
    ensures !RemovePorts(list, ports).failed ==>
      RemovePorts(list, ports).rest == RemoveNumbers(list, ports)
    ensures DistinctNumbers(RemovePorts(list, ports).rest)
    decreases |ports|
  {
    if |ports| == 0 {
      RemoveNumbersNone(list, ports);
    } else {
      var init := ports[..|ports| - 1];
      var p := ports[|ports| - 1];
      var prev := RemovePorts(list, init);
      RemovePortsAgrees(list, init);
      assert ports == init + [p];
      RemoveNumbersSnoc(list, init, p);
      FilterStep(prev.rest, p);
      FilterOutKeepsDistinct(prev.rest, p.number);
    }
  }

  lemma {:induction false} RemoveNumbersNone(list: seq<Port>, ports: seq<Port>)
    requires |ports| == 0
    ensures RemoveNumbers(list, ports) == list
  {
    if |list| > 0 {
      RemoveNumbersNone(list[1..], ports);
      assert list == [list[0]] + list[1..];
    }
  }

  /** Finding: deleting a port whose number is on the switch with the other tag raises ValueError. */
  lemma DeleteOtherTagRaises()
    ensures RemovePorts([Port(Num(1), false, 1)], [Port(Num(1), true, 1)]) ==
            Removal([Port(Num(1), false, 1)], true)
  {
    var list := [Port(Num(1), false, 1)];
    var ports := [Port(Num(1), true, 1)];
    assert ports[..0] == [];
    assert list[0] in list;
    assert Port(Num(1), true, 1) !in list;
  }

  // ---------------------------------------------------------------------
  // The vlan object

  /** A Python dict from switch ids to port lists; None marks a deleted switch. */
  class SwitchTable {
    var entries: map<string, Option<seq<Port>>>

    constructor ()
      ensures entries == map[]
    {
      entries := map[];
    }
  }

  /** The dict a table stands for, with a missing table (None) read as empty. */
  function Entries(t: SwitchTable?): map<string, Option<seq<Port>>>
    reads t
  {
    if t == null then map[] else t.entries
  }

  /** The switch is part of the vlan: its id is a key whose value is not None. */
  predicate OnSwitch(m: map<string, Option<seq<Port>>>, switchId: string)
  {
    switchId in m && m[switchId].Some?
  }

  /** The switch's port list, or the empty list addSwitch would create. */
  function ListOf(m: map<string, Option<seq<Port>>>, switchId: string): seq<Port>
  {
    if OnSwitch(m, switchId) then m[switchId].value else []
  }

  /**
   * The default argument values of VLAN.__init__. Python evaluates them once,
   * when the class body runs, so there is a single default dict.
   */
  class VlanDefaults {
    const switches: SwitchTable

    constructor ()
      ensures fresh(switches) && switches.entries == map[]
    {
      switches := new SwitchTable();
    }
  }

  class Vlan {
    var name: Option<string>
    var id: Option<string>
    var internalId: Option<string>
    var taggedId: Option<string>
    var switches: SwitchTable?

    /** VLAN.__init__ with every argument given. */
    constructor (name: Option<string>, switches: SwitchTable?, id: Option<string>,
                 internalId: Option<string>, taggedId: Option<string>)
      ensures this.name == name && this.id == id && this.internalId == internalId
      ensures this.taggedId == taggedId && this.switches == switches
    {
      this.name := name;
      this.id := id;
      this.internalId := internalId;
      this.taggedId := taggedId;
      this.switches := switches;
    }

    /** VLAN(name) as written: the vlan takes the one default dict itself. */
    constructor WithDefaultSwitches(name: Option<string>, defaults: VlanDefaults)
      ensures this.name == name && id == None && internalId == None && taggedId == None
      ensures switches == defaults.switches
    {
      this.name := name;
      id := None;
      internalId := None;
      taggedId := None;
      switches := defaults.switches;
    }

    /** VLAN(name) corrected: each vlan gets a dict of its own. */
    constructor WithOwnSwitches(name: Option<string>)
      ensures this.name == name && id == None && internalId == None && taggedId == None
      ensures fresh(switches) && switches.entries == map[]
    {
      this.name := name;
      id := None;
      internalId := None;
      taggedId := None;
      switches := new SwitchTable();
    }

    /** getPortsOnSwitch: None both for a switch that is not a key and for a deleted one. */
    function PortsOnSwitch(switchId: string): (r: Option<seq<Port>>)
      reads this, switches
      ensures r.Some? <==> OnSwitch(Entries(switches), switchId)
      ensures r.Some? ==> r.value == ListOf(Entries(switches), switchId)
    {
      if switches == null then None
      else if switchId !in switches.entries then None
      else switches.entries[switchId]
    }

    /** addSwitch: the switch gets an empty port list; item assignment on None raises TypeError. */
    method AddSwitch(switchId: string) returns (st: Status)
      modifies switches
      ensures old(switches) == null ==> st == Raised(TypeError)
      ensures switches != null ==> st == Ok && switches.entries == old(switches.entries)[switchId := Some([])]
    {
      if switches == null {
        return Raised(TypeError);
      }
      switches.entries := switches.entries[switchId := Some([])];
      return Ok;
    }

    /** deleteSwitch: the key stays, with None as its value. */
    method DeleteSwitch(switchId: string) returns (st: Status)
      modifies switches
      ensures old(switches) == null ==> st == Raised(TypeError)
      ensures switches != null ==> st == Ok && switches.entries == old(switches.entries)[switchId := None]
    {
      if switches == null {
        return Raised(TypeError);
      }
      switches.entries := switches.entries[switchId := None];
      return Ok;
    }

    /**
     * addPorts: a missing dict becomes {}, a missing or deleted switch gets an
     * empty list, then each port whose number is not yet in the list is appended.
     */
    method AddPorts(ports: seq<Port>, switchId: string)
      modifies this, switches
      ensures name == old(name) && id == old(id) && internalId == old(internalId) && taggedId == old(taggedId)
      ensures switches != null
      ensures old(switches) != null ==> switches == old(switches)
      ensures old(switches) == null ==> fresh(switches)
      ensures switches.entries == old(Entries(switches))[switchId :=
        Some(AddMissing(ListOf(old(Entries(switches)), switchId), ports))]
    {
      ghost var start := Entries(switches);
      ghost var base := ListOf(start, switchId);
      if switches == null {
        switches := new SwitchTable();
      }
      var t := switches;
      if switchId !in t.entries || t.entries[switchId].None? {
        t.entries := t.entries[switchId := Some([])];
      }
      for k := 0 to |ports|
        invariant switches == t && name == old(name) && id == old(id)
        invariant internalId == old(internalId) && taggedId == old(taggedId)
        invariant t.entries == start[switchId := Some(AddMissing(base, ports[..k]))]
      {
        var list := t.entries[switchId].value;
        var present := IsPortInList(ports[k], list);
        if !present {
          t.entries := t.entries[switchId := Some(list + [ports[k]])];
        }
        assert ports[..k + 1][..k] == ports[..k];
      }
      assert ports[..|ports|] == ports;
    }

    /**
     * deletePorts: has_key on a missing dict raises AttributeError; a switch
     * that is not a key or was deleted is left alone; otherwise the ports are
     * removed as RemovePorts says, and a ValueError keeps the removals made
     * before it.
     */
    method DeletePorts(ports: seq<Port>, switchId: string) returns (st: Status)
      modifies switches
      ensures old(switches) == null ==> st == Raised(AttributeError)
      ensures old(switches) != null && !OnSwitch(old(switches.entries), switchId) ==>
        st == Ok && switches.entries == old(switches.entries)
      ensures old(switches) != null && OnSwitch(old(switches.entries), switchId) ==>
        var r := RemovePorts(old(switches.entries)[switchId].value, ports);
        switches.entries == old(switches.entries)[switchId := Some(r.rest)] &&
        st == (if r.failed then Raised(ValueError) else Ok)
    {
      if switches == null {
        return Raised(AttributeError);
      }
      if switchId !in switches.entries || switches.entries[switchId].None? {
        return Ok;
      }
      ghost var start := switches.entries;
      ghost var list0 := start[switchId].value;
      for k := 0 to |ports|
        invariant !RemovePorts(list0, ports[..k]).failed
        invariant switches.entries == start[switchId := Some(RemovePorts(list0, ports[..k]).rest)]
      {
        assert ports[..k + 1][..k] == ports[..k];
        var list := switches.entries[switchId].value;
        var present := IsPortInList(ports[k], list);
        if present {
          if ports[k] !in list {
            assert ports == ports[..k + 1] + ports[k + 1..];
            RemovePortsStops(list0, ports[..k + 1], ports[k + 1..]);
            return Raised(ValueError);
          }
          switches.entries := switches.entries[switchId := Some(RemoveFirst(list, ports[k]))];
        }
      }
      assert ports[..|ports|] == ports;
      return Ok;
    }
  }

  /** Once list.remove has raised, later ports are not looked at. */
  lemma {:induction false} RemovePortsStops(list: seq<Port>, done: seq<Port>, later: seq<Port>)
    requires RemovePorts(list, done).failed
    ensures RemovePorts(list, done + later) == RemovePorts(list, done)
    decreases |later|
  {
    if |later| > 0 {
      var init := later[..|later| - 1];
      RemovePortsStops(list, done, init);
      assert (done + later)[..|done + later| - 1] == done + init;
    } else {
      assert done + later == done;
    }
  }

  /** Finding, as written: ports added to one default-built vlan show up in another. */
  method DefaultSwitchesShared(defaults: VlanDefaults, p: Port, switchId: string)
    returns (seen: Option<seq<Port>>)
    requires switchId !in defaults.switches.entries
    modifies defaults.switches
    ensures seen == Some([p])
  {
    var a := new Vlan.WithDefaultSwitches(Some("a"), defaults);
    var b := new Vlan.WithDefaultSwitches(Some("b"), defaults);
    assert ListOf(defaults.switches.entries, switchId) == [];
    a.AddPorts([p], switchId);
    assert [p][..0] == [];
    assert AddMissing([], [p]) == [p];
    assert b.switches == a.switches;
    seen := b.PortsOnSwitch(switchId);
  }

  /** Finding, corrected: with a dict per vlan, ports added to one vlan stay out of the other. */
  method OwnSwitchesSeparate(p: Port, switchId: string) returns (seen: Option<seq<Port>>)
    ensures seen == None
  {
    var a := new Vlan.WithOwnSwitches(Some("a"));
    var b := new Vlan.WithOwnSwitches(Some("b"));
    a.AddPorts([p], switchId);
    seen := b.PortsOnSwitch(switchId);
  }

  // ---------------------------------------------------------------------
  // VlanOwner

  /** A VlanOwner field: None, a string, or the integer -1 fromFileString stores for a missing vid. */
  datatype Field = NoValue | Text(s: string) | MinusOne

  /** str() of a field. */
  function Show(f: Field): string
  {
    match f
    case NoValue => "None"
    case Text(s) => s
    case MinusOne => "-1"
  }

  class VlanOwner {
    var name: Field
    var owner: Field
    var vid: Field

    constructor (name: Field, owner: Field, vid: Field)
      ensures this.name == name && this.owner == owner && this.vid == vid
    {
      this.name := name;
      this.owner := owner;
      this.vid := vid;
    }

    /** toFileString: the three fields written out, separated by commas. */
    function ToFileString(): string
      reads this
    {
      Show(name) + "," + Show(owner) + "," + Show(vid)
    }

    /**
     * fromFileString: the comma-separated parts give the name, the owner and
     * the vid; a missing vid becomes -1; a missing owner raises IndexError
     * after the name has been set.
     */
    method FromFileString(line: string) returns (st: Status)
      modifies this
      ensures var args := Split(line, ',');
        name == Text(args[0]) &&
        (|args| < 2 ==> st == Raised(IndexError) && owner == old(owner) && vid == old(vid)) &&
        (|args| >= 2 ==> st == Ok && owner == Text(args[1]) &&
                         vid == (if |args| >= 3 then Text(args[2]) else MinusOne))
    {
      var args := Split(line, ',');
      name := Text(args[0]);
      if |args| < 2 {
        return Raised(IndexError);
      }
      owner := Text(args[1]);
      if |args| >= 3 {
        vid := Text(args[2]);
      } else {
        vid := MinusOne;
      }
      return Ok;
    }
  }

  /** The file line of three comma-free fields splits back into the three fields. */
  lemma OwnerLineSplits(n: string, o: string, v: string)
    requires ',' !in n && ',' !in o && ',' !in v
    ensures Split(n + "," + o + "," + v, ',') == [n, o, v]
  {
    SplitAround(n + "," + o, v, ',');
    SplitAround(n, o, ',');
    SplitWhole(n, ',');
    SplitWhole(o, ',');
    SplitWhole(v, ',');
    assert n + "," + o + "," + v == (n + [','] + o) + [','] + v;
  }

  /**
   * VlanOwner().fromFileString(v.toFileString()) restores the text of each
   * field when none contains ','.
   */
  method Reload(v: VlanOwner) returns (w: VlanOwner, st: Status)
    requires ',' !in Show(v.name) && ',' !in Show(v.owner) && ',' !in Show(v.vid)
    ensures st == Ok
    ensures w.name == Text(Show(v.name)) && w.owner == Text(Show(v.owner)) && w.vid == Text(Show(v.vid))
  {
    w := new VlanOwner(NoValue, NoValue, NoValue);
    var line := v.ToFileString();
    OwnerLineSplits(Show(v.name), Show(v.owner), Show(v.vid));
    st := w.FromFileString(line);
  }

  // ---------------------------------------------------------------------
  // SimpleVlan and SimplePort, the per-switch records of the drivers

  /** SimplePort's untagged and pvid entries: a (vlan, name) pair, (None, None) when unset. */
  datatype VlanPair = VlanPair(first: Field, second: Field)

  const NoPair := VlanPair(NoValue, NoValue)

  class SimplePort {
    var name: Field
    var id: int
    var switch: Field
    var untagged: VlanPair
    var tagged: seq<Field>
    var macs: seq<string>
    var pvid: VlanPair
    var notes: Field
    var vlanMode: int

    /** SimplePort.__init__: no vlans, no macs, vlan mode 0 (UNKNOWN). */
    constructor (name: Field, id: int, switch: Field)
      ensures this.name == name && this.id == id && this.switch == switch
      ensures untagged == NoPair && tagged == [] && macs == [] && pvid == NoPair
      ensures notes == NoValue && vlanMode == 0
    {
      this.name := name;
      this.id := id;
      this.switch := switch;
      untagged := NoPair;
      tagged := [];
      macs := [];
      pvid := NoPair;
      notes := NoValue;
      vlanMode := 0;
    }

    /** The fields that name the port, which no vlan or mac update touches. */
    function Identity(): PortIdentity
      reads this
    {
      PortIdentity(name, id, switch, notes, vlanMode)
    }

    /** The vlan membership of the port. */
    function Membership(): (VlanPair, seq<Field>, VlanPair)
      reads this
    {
      (untagged, tagged, pvid)
    }

    method SetUntagged(v: VlanPair)
      modifies this
      ensures untagged == v && tagged == old(tagged) && pvid == old(pvid)
      ensures Identity() == old(Identity()) && macs == old(macs)
    {
      untagged := v;
    }

    method SetPvid(v: VlanPair)
      modifies this
      ensures pvid == v && untagged == old(untagged) && tagged == old(tagged)
      ensures Identity() == old(Identity()) && macs == old(macs)
    {
      pvid := v;
    }

    method SetTagged(v: seq<Field>)
      modifies this
      ensures tagged == v && untagged == old(untagged) && pvid == old(pvid)
      ensures Identity() == old(Identity()) && macs == old(macs)
    {
      tagged := v;
    }

    method SetMacs(v: seq<string>)
      modifies this
      ensures macs == v && Membership() == old(Membership())
      ensures Identity() == old(Identity())
    {
      macs := v;
    }
  }

  datatype PortIdentity = PortIdentity(name: Field, id: int, switch: Field, notes: Field, vlanMode: int)

  class SimpleVlan {
    var name: Field
    var id: Field
    var localId: Field
    var switch: Field
    var untagged: seq<int>
    var tagged: seq<int>
    var pvid: seq<int>
    var notes: Field

    /** SimpleVlan.__init__: no ports yet. */
    constructor (name: Field, id: Field, localId: Field, switch: Field)
      ensures this.name == name && this.id == id && this.localId == localId && this.switch == switch
      ensures untagged == [] && tagged == [] && pvid == [] && notes == NoValue
    {
      this.name := name;
      this.id := id;
      this.localId := localId;
      this.switch := switch;
      untagged := [];
      tagged := [];
      pvid := [];
      notes := NoValue;
    }
  }
}
