/**
 * The 802.1Q PortList bitmaps of the switch drivers (the PortList textual
 * convention of RFC 4363, Q-BRIDGE-MIB): octet i of the list holds ports
 * 8i+1 .. 8i+8, the most significant bit first. This module holds the
 * Switch.mask / Switch.inv_mask tables of lib/hardware/switches/switch.py,
 * getEmptyBitMap and printPortMap, and the set and parse loops the drivers
 * (linksys.py, hp.py, force10.py, cisco.py) share. Octets are bv8 values,
 * as unpack('B') gives them.
 */
module PortList {
  import opened Common

  /** Switch.mask (switch.py:48): the bit of slot s, most significant first; a ninth entry 0. */
  function Mask(slot: int): bv8
  {
    if slot == 0 then 128 else if slot == 1 then 64 else if slot == 2 then 32 else if slot == 3 then 16
    else if slot == 4 then 8 else if slot == 5 then 4 else if slot == 6 then 2 else if slot == 7 then 1
    else 0
  }

  /** Switch.inv_mask (switch.py:49) as written: 127, 191, 223, 239, 247, 251, 254, 255. */
  function InvMask(slot: int): bv8
  {
    if slot == 0 then 127 else if slot == 1 then 191 else if slot == 2 then 223 else if slot == 3 then 239
    else if slot == 4 then 247 else if slot == 5 then 251 else if slot == 6 then 254 else 255
  }

  /** The complements of mask[0..8], what inv_mask was evidently meant to hold. */
  function FixedInvMask(slot: int): bv8
  {
    if slot == 0 then 127 else if slot == 1 then 191 else if slot == 2 then 223 else if slot == 3 then 239
    else if slot == 4 then 247 else if slot == 5 then 251 else if slot == 6 then 253 else 254
  }

  const SLOTS: nat := 8

  /** Port p (1-based) sits in octet (p-1) div 8 at slot (p-1) mod 8. */
  function Octet(p: int): int { (p - 1) / 8 }
  function Slot(p: int): int { (p - 1) % 8 }

  predicate InList(pl: seq<bv8>, p: int) { 1 <= p <= 8 * |pl| }

  /** The test of the parse loops: octet & mask[slot] == mask[slot]. */
  predicate BitSet(b: bv8, slot: int)
    requires 0 <= slot < 8
  {
    b & Mask(slot) == Mask(slot)
  }

  /** Port p is a member of the list. */
  predicate IsSet(pl: seq<bv8>, p: int)
    requires InList(pl, p)
  {
    BitSet(pl[Octet(p)], Slot(p))
  }

  /** The members among the first `slots` ports of octet b, numbered from base + 1. */
  function OctetPorts(b: bv8, base: int, slots: nat): seq<int>
    requires slots <= 8
  {
    if slots == 0 then [] else OctetPorts(b, base, slots - 1) + (if BitSet(b, slots - 1) then [base + slots] else [])
  }

  /** The members held by the first k octets, in ascending order. */
  function Ports(pl: seq<bv8>, k: nat): seq<int>
    requires k <= |pl|
  {
    if k == 0 then [] else Ports(pl, k - 1) + OctetPorts(pl[k - 1], 8 * (k - 1), SLOTS)
  }

  /** The members among ports 1..n. */
  function Scan(pl: seq<bv8>, n: nat): seq<int>
    requires n <= 8 * |pl|
  {
    if n % 8 == 0 then Ports(pl, n / 8) else Ports(pl, n / 8) + OctetPorts(pl[n / 8], 8 * (n / 8), n % 8)
  }

  predicate Ascending(ports: seq<int>)
  {
    forall i, j :: 0 <= i < j < |ports| ==> ports[i] < ports[j]
  }

  predicate Within(ports: seq<int>, lo: int, hi: int)
  {
    forall i :: 0 <= i < |ports| ==> lo <= ports[i] <= hi
  }

  lemma {:induction false} OctetPortsMember(b: bv8, base: int, slots: nat, p: int)
    requires slots <= 8
    ensures p in OctetPorts(b, base, slots) <==> base < p <= base + slots && BitSet(b, p - base - 1)
    decreases slots
  {
    if slots > 0 {
      OctetPortsMember(b, base, slots - 1, p);
    }
  }

  lemma {:induction false} OctetPortsAscending(b: bv8, base: int, slots: nat)
    requires slots <= 8
    ensures Ascending(OctetPorts(b, base, slots)) && Within(OctetPorts(b, base, slots), base + 1, base + slots)
    decreases slots
  {
    if slots > 0 {
      OctetPortsAscending(b, base, slots - 1);
      if BitSet(b, slots - 1) {
        AscendingAppend(OctetPorts(b, base, slots - 1), [base + slots], base + 1, base + slots - 1, base + slots);
      }
    }
  }

  lemma AscendingAppend(a: seq<int>, b: seq<int>, lo: int, mid: int, hi: int)
    requires Ascending(a) && Within(a, lo, mid) && Ascending(b) && Within(b, mid + 1, hi)
    requires lo <= mid + 1 && mid <= hi
    ensures Ascending(a + b) && Within(a + b, lo, hi)
  {
    var c := a + b;
    forall i, j | 0 <= i < j < |c|
      ensures c[i] < c[j]
    {
      if j < |a| {
        assert c[i] == a[i] && c[j] == a[j];
      } else if i < |a| {
        assert c[i] == a[i] && c[j] == b[j - |a|];
      } else {
        assert c[i] == b[i - |a|] && c[j] == b[j - |a|];
      }
    }
    forall i | 0 <= i < |c|
      ensures lo <= c[i] <= hi
    {
      if i < |a| {
        assert c[i] == a[i];
      } else {
        assert c[i] == b[i - |a|];
      }
    }
  }

  /** A port of octet k is at position k, slot p - 8k - 1. */
  lemma InOctet(p: int, k: int)
    requires 0 <= k && 8 * k < p <= 8 * k + 8
    ensures Octet(p) == k && Slot(p) == p - 8 * k - 1
  {
  }

  /** A port of octet k reads the bit of its slot in that octet. */
  lemma InOctetBit(pl: seq<bv8>, k: nat, p: int)
    requires k < |pl| && 8 * k < p <= 8 * k + 8
    ensures InList(pl, p) && IsSet(pl, p) == BitSet(pl[k], p - 8 * k - 1)
  {
    InOctet(p, k);
  }

  lemma {:induction false} PortsMember(pl: seq<bv8>, k: nat, p: int)
    requires k <= |pl|
    ensures p in Ports(pl, k) <==> 1 <= p <= 8 * k && IsSet(pl, p)
    decreases k
  {
    if k > 0 {
      var prev, last := Ports(pl, k - 1), OctetPorts(pl[k - 1], 8 * (k - 1), SLOTS);
      assert (p in Ports(pl, k)) == (p in prev || p in last);
      PortsMember(pl, k - 1, p);
      OctetPortsMember(pl[k - 1], 8 * (k - 1), SLOTS, p);
      if 8 * (k - 1) < p <= 8 * k {
        InOctetBit(pl, k - 1, p);
        assert p !in prev;
      } else {
        assert p !in last;
      }
    }
  }

  lemma {:induction false} PortsAscending(pl: seq<bv8>, k: nat)
    requires k <= |pl|
    ensures Ascending(Ports(pl, k)) && Within(Ports(pl, k), 1, 8 * k)
    decreases k
  {
    if k > 0 {
      PortsAscending(pl, k - 1);
      OctetPortsAscending(pl[k - 1], 8 * (k - 1), SLOTS);
      AscendingAppend(Ports(pl, k - 1), OctetPorts(pl[k - 1], 8 * (k - 1), SLOTS), 1, 8 * (k - 1), 8 * k);
    }
  }

  /** The members among ports 1..n are the set ports in that range, in ascending order. */
  lemma ScanMembers(pl: seq<bv8>, n: nat)
    requires n <= 8 * |pl|
    ensures forall p :: p in Scan(pl, n) <==> 1 <= p <= n && IsSet(pl, p)
    ensures Ascending(Scan(pl, n)) && Within(Scan(pl, n), 1, n)
  {
    var k, slots := n / 8, n % 8;
    assert n == 8 * k + slots;
    if slots == 0 {
      ScanFull(pl, k, n);
      PortsAscending(pl, k);
      forall p
        ensures p in Scan(pl, n) <==> 1 <= p <= n && IsSet(pl, p)
      {
        PortsMember(pl, k, p);
      }
    } else {
      ScanPart(pl, k, slots, n);
      PartAscending(pl, k, slots);
      forall p
        ensures p in Scan(pl, n) <==> 1 <= p <= n && IsSet(pl, p)
      {
        PartMember(pl, k, slots, p);
      }
    }
  }

  lemma PartMember(pl: seq<bv8>, k: nat, slots: nat, p: int)
    requires k < |pl| && 0 < slots < 8
    ensures p in Ports(pl, k) + OctetPorts(pl[k], 8 * k, slots) <==> 1 <= p <= 8 * k + slots && IsSet(pl, p)
  {
    PortsMember(pl, k, p);
    OctetPortsMember(pl[k], 8 * k, slots, p);
    if 8 * k < p <= 8 * k + slots {
      InOctetBit(pl, k, p);
    }
  }

  lemma PartAscending(pl: seq<bv8>, k: nat, slots: nat)
    requires k < |pl| && 0 < slots < 8
    ensures Ascending(Ports(pl, k) + OctetPorts(pl[k], 8 * k, slots))
    ensures Within(Ports(pl, k) + OctetPorts(pl[k], 8 * k, slots), 1, 8 * k + slots)
  {
    PortsAscending(pl, k);
    OctetPortsAscending(pl[k], 8 * k, slots);
    AscendingAppend(Ports(pl, k), OctetPorts(pl[k], 8 * k, slots), 1, 8 * k, 8 * k + slots);
  }

  /** The members among ports 1..n, n = 8k, are those of the first k octets. */
  lemma ScanFull(pl: seq<bv8>, k: nat, n: nat)
    requires k <= |pl| && n == 8 * k
    ensures Scan(pl, n) == Ports(pl, k)
  {
    assert n / 8 == k && n % 8 == 0;
  }

  /** The members among ports 1..n, for n = 8k + slots inside octet k. */
  lemma ScanPart(pl: seq<bv8>, k: nat, slots: nat, n: nat)
    requires k < |pl| && 0 < slots < 8 && n == 8 * k + slots
    ensures Scan(pl, n) == Ports(pl, k) + OctetPorts(pl[k], 8 * k, slots)
  {
    assert n / 8 == k && n % 8 == slots;
  }

  /** The ports of the first k octets only depend on those octets. */
  lemma {:induction false} PortsPrefix(pl: seq<bv8>, m: nat, k: nat)
    requires k <= m <= |pl|
    ensures Ports(pl[..m], k) == Ports(pl, k)
    decreases k
  {
    if k > 0 {
      PortsPrefix(pl, m, k - 1);
      assert pl[..m][k - 1] == pl[k - 1];
    }
  }

  lemma ScanPrefix(pl: seq<bv8>, m: nat, n: nat)
    requires m <= |pl| && n <= 8 * m
    ensures Scan(pl[..m], n) == Scan(pl, n)
  {
    PortsPrefix(pl, m, n / 8);
    if n % 8 != 0 {
      assert pl[..m][n / 8] == pl[n / 8];
    }
  }

  /** The step of every parse loop: one more slot of octet b scanned. */
  lemma OctetStep(b: bv8, base: int, slot: nat, done: seq<int>, before: seq<int>, after: seq<int>)
    requires slot < 8 && before == done + OctetPorts(b, base, slot)
    requires after == before + (if BitSet(b, slot) then [base + slot + 1] else [])
    ensures after == done + OctetPorts(b, base, slot + 1)
  {
  }

  lemma OctetStart(b: bv8, base: int, done: seq<int>)
    ensures done == done + OctetPorts(b, base, 0)
  {
  }

  lemma OctetEnd(pl: seq<bv8>, k: nat, ports: seq<int>)
    requires k < |pl| && ports == Ports(pl, k) + OctetPorts(pl[k], 8 * k, SLOTS)
    ensures ports == Ports(pl, k + 1)
  {
  }

  // ---------------------------------------------------------------------
  // __setPortList (linksys.py:752-776, hp.py:780-804, force10.py:1263-1287).

  /** The octet after setting or clearing its slot, with the table of inverse masks given. */
  function Change(b: bv8, slot: int, enable: bool, fixed: bool): bv8
    requires 0 <= slot < 8
  {
    if enable then b | Mask(slot) else b & (if fixed then FixedInvMask(slot) else InvMask(slot))
  }

  /** The list __setPortList returns; fixed selects the complemented inverse masks. */
  function Updated(pl: seq<bv8>, port: int, enable: bool, fixed: bool): seq<bv8>
  {
    if InList(pl, port) then pl[Octet(port) := Change(pl[Octet(port)], Slot(port), enable, fixed)] else pl
  }

  /** What raw_ports holds once port_number has reached n. */
  ghost predicate SetState(pl: seq<bv8>, port: int, enable: bool, raw: seq<bv8>, n: int)
  {
    raw == if 1 <= port <= n then Updated(pl, port, enable, false) else pl
  }

  lemma SetPass(pl: seq<bv8>, port: int, enable: bool, raw: seq<bv8>, i: int, slot: int)
    requires 0 <= i < |pl| && 0 <= slot < 8 && SetState(pl, port, enable, raw, 8 * i + slot)
    requires port != 8 * i + slot + 1
    ensures SetState(pl, port, enable, raw, 8 * i + slot + 1)
  {
  }

  lemma SetHit(pl: seq<bv8>, port: int, enable: bool, raw: seq<bv8>, i: int, slot: int, after: seq<bv8>)
    requires 0 <= i < |pl| && 0 <= slot < 8 && SetState(pl, port, enable, raw, 8 * i + slot)
    requires port == 8 * i + slot + 1
    requires after == raw[i := Change(raw[i], slot, enable, false)]
    ensures SetState(pl, port, enable, after, 8 * i + slot + 1)
  {
    InOctet(port, i);
  }

  /**
   * __setPortList(pl, internal_port, enable): the loop counts ports over every
   * octet and slot and changes the octet of the matching one in place.
   */
  method SetPortList(pl: seq<bv8>, port: int, enable: bool) returns (r: seq<bv8>)
    ensures r == Updated(pl, port, enable, false)
  {
    var raw := new bv8[|pl|](i requires 0 <= i < |pl| => pl[i]);
    var portNumber := 0;
    var i := 0;
    while i < raw.Length
      invariant 0 <= i <= raw.Length == |pl| && portNumber == 8 * i
      invariant SetState(pl, port, enable, raw[..], portNumber)
    {
      var slot := 0;
      while slot < 8
        invariant 0 <= slot <= 8 && portNumber == 8 * i + slot
        invariant SetState(pl, port, enable, raw[..], portNumber)
      {
        ghost var before := raw[..];
        portNumber := portNumber + 1;
        if portNumber == port {
          if enable {
            raw[i] := raw[i] | Mask(slot);
          } else {
            raw[i] := raw[i] & InvMask(slot);
          }
          SetHit(pl, port, enable, before, i, slot, raw[..]);
        } else {
          SetPass(pl, port, enable, before, i, slot);
        }
        slot := slot + 1;
      }
      i := i + 1;
    }
    r := raw[..];
  }

  lemma UpdatedLength(pl: seq<bv8>, port: int, enable: bool, fixed: bool)
    ensures |Updated(pl, port, enable, fixed)| == |pl|
    ensures forall j :: 0 <= j < |pl| && (!InList(pl, port) || j != Octet(port)) ==>
      Updated(pl, port, enable, fixed)[j] == pl[j]
  {
  }

  /** Or-ing in mask[slot] sets that slot and keeps the others. */
  lemma SetBitOnly(b: bv8, slot: int, other: int)
    requires 0 <= slot < 8 && 0 <= other < 8
    ensures BitSet(b | Mask(slot), slot)
    ensures other != slot ==> (BitSet(b | Mask(slot), other) == BitSet(b, other))
  {
  }

  /** And-ing with the complement of mask[slot] clears that slot and keeps the others. */
  lemma ClearBitOnly(b: bv8, slot: int, other: int)
    requires 0 <= slot < 8 && 0 <= other < 8
    ensures !BitSet(b & FixedInvMask(slot), slot)
    ensures other != slot ==> (BitSet(b & FixedInvMask(slot), other) == BitSet(b, other))
  {
  }

  /** Two ports at the same octet and slot are the same port. */
  lemma SamePosition(p: int, q: int)
    requires 1 <= p && 1 <= q && Octet(p) == Octet(q) && Slot(p) == Slot(q)
    ensures p == q
  {
  }

  /** A port other than the changed one reads the same bit after the update. */
  lemma OtherPortKept(pl: seq<bv8>, port: int, enable: bool, fixed: bool, q: int)
    requires InList(pl, port) && InList(pl, q) && q != port
    requires enable || fixed
    ensures IsSet(Updated(pl, port, enable, fixed), q) == IsSet(pl, q)
  {
    var r := Updated(pl, port, enable, fixed);
    if Octet(q) == Octet(port) {
      if Slot(q) == Slot(port) {
        SamePosition(port, q);
      }
      if enable {
        SetBitOnly(pl[Octet(port)], Slot(port), Slot(q));
      } else {
        ClearBitOnly(pl[Octet(port)], Slot(port), Slot(q));
      }
    } else {
      assert r[Octet(q)] == pl[Octet(q)];
    }
  }

  /** Enabling a port sets its bit and leaves every other port as it was. */
  lemma EnableSetsOnlyPort(pl: seq<bv8>, port: int, fixed: bool)
    requires InList(pl, port)
    ensures var r := Updated(pl, port, true, fixed);
      IsSet(r, port) && forall q :: InList(pl, q) && q != port ==> IsSet(r, q) == IsSet(pl, q)
  {
    SetBitOnly(pl[Octet(port)], Slot(port), Slot(port));
    forall q | InList(pl, q) && q != port
      ensures IsSet(Updated(pl, port, true, fixed), q) == IsSet(pl, q)
    {
      OtherPortKept(pl, port, true, fixed, q);
    }
  }

  /** Enabling twice is enabling once. */
  lemma EnableIdempotent(pl: seq<bv8>, port: int, fixed: bool)
    ensures Updated(Updated(pl, port, true, fixed), port, true, fixed) == Updated(pl, port, true, fixed)
  {
    if InList(pl, port) {
      var b := pl[Octet(port)];
      assert (b | Mask(Slot(port))) | Mask(Slot(port)) == b | Mask(Slot(port));
    }
  }

  /** A port outside 1 .. 8 * len leaves the list as it was. */
  lemma OutOfRangeUnchanged(pl: seq<bv8>, port: int, enable: bool, fixed: bool)
    requires !InList(pl, port)
    ensures Updated(pl, port, enable, fixed) == pl
  {
  }

  /** inv_mask is the complement of mask exactly in slots 0 to 5. */
  lemma InvMaskComplement(slot: int)
    requires 0 <= slot < 8
    ensures (InvMask(slot) == !Mask(slot)) <==> slot < 6
    ensures FixedInvMask(slot) == !Mask(slot)
  {
  }

  /**
   * As written, disabling port 7 of a full octet clears port 8 instead and keeps
   * port 7; disabling port 8 clears nothing.
   */
  lemma DisableSlotsSixSeven()
    ensures Updated([0xFF], 7, false, false) == [0xFE]
    ensures IsSet([0xFE], 7) && !IsSet([0xFE], 8)
    ensures Updated([0xFF], 8, false, false) == [0xFF]
  {
    assert Octet(7) == 0 && Slot(7) == 6 && Octet(8) == 0 && Slot(8) == 7;
  }

  /** In slots 0 to 5 the tables agree, so disabling works there as written. */
  lemma DisableLowSlotsAsWritten(pl: seq<bv8>, port: int)
    requires InList(pl, port) && Slot(port) < 6
    ensures Updated(pl, port, false, false) == Updated(pl, port, false, true)
  {
  }

  /** With the complemented table, disabling clears the port's bit and nothing else. */
  lemma DisableClearsOnlyPort(pl: seq<bv8>, port: int)
    requires InList(pl, port)
    ensures var r := Updated(pl, port, false, true);
      !IsSet(r, port) && forall q :: InList(pl, q) && q != port ==> IsSet(r, q) == IsSet(pl, q)
  {
    ClearBitOnly(pl[Octet(port)], Slot(port), Slot(port));
    forall q | InList(pl, q) && q != port
      ensures IsSet(Updated(pl, port, false, true), q) == IsSet(pl, q)
    {
      OtherPortKept(pl, port, false, true, q);
    }
  }

  // ---------------------------------------------------------------------
  // The parse loops.

  /** The slot loop of the parse functions over one octet; base is port_number before it. */
  method ScanOctet(b: bv8, base: int, done: seq<int>) returns (ports: seq<int>)
    ensures ports == done + OctetPorts(b, base, SLOTS)
  {
    ports := done;
    OctetStart(b, base, done);
    var portNumber := base;
    var slot := 0;
    while slot < 8
      invariant 0 <= slot <= 8 && portNumber == base + slot
      invariant ports == done + OctetPorts(b, base, slot)
    {
      ghost var before := ports;
      portNumber := portNumber + 1;
      if BitSet(b, slot) {
        ports := ports + [portNumber];
      }
      OctetStep(b, base, slot, done, before, ports);
      slot := slot + 1;
    }
  }

  /** The octet-checking scan has stopped by port n: count is a positive multiple of 8 up to n. */
  predicate OctetStop(count: int, n: int)
  {
    count > 0 && count % 8 == 0 && count <= n
  }

  /** count is reached after octet k exactly when it is 8k + 8, if not reached before. */
  lemma OctetStopStep(count: int, k: nat)
    requires !OctetStop(count, 8 * k)
    ensures OctetStop(count, 8 * k + 8) <==> count == 8 * k + 8
  {
    if 8 * k < count < 8 * k + 8 {
      assert count % 8 == count - 8 * k;
    }
    if count == 8 * k + 8 {
      assert count % 8 == 0;
    }
  }

  /**
   * One scan over raw as the parse loops of linksys.py and hp.py write it, with
   * the port-count test after each octet: port_number restarts at 0 and the
   * scan stops once port_number equals count.
   */
  method ScanCheckingOctets(raw: seq<bv8>, count: int) returns (ports: seq<int>, stopped: bool)
    ensures stopped <==> OctetStop(count, 8 * |raw|)
    ensures stopped ==> ports == Scan(raw, count)
    ensures !stopped ==> ports == Scan(raw, 8 * |raw|)
  {
    ports := [];
    var portNumber := 0;
    var k := 0;
    while k < |raw|
      invariant 0 <= k <= |raw| && portNumber == 8 * k
      invariant ports == Ports(raw, k)
      invariant !OctetStop(count, portNumber)
    {
      ports := ScanOctet(raw[k], portNumber, ports);
      OctetEnd(raw, k, ports);
      OctetStopStep(count, k);
      portNumber := portNumber + 8;
      k := k + 1;
      if portNumber == count {
        ScanFull(raw, k, count);
        return ports, true;
      }
    }
    ScanFull(raw, |raw|, 8 * |raw|);
    return ports, false;
  }

  /** The same scan with the test after each slot (hp.py:526-541, cisco.py:227-242). */
  method ScanCheckingSlots(raw: seq<bv8>, count: int) returns (ports: seq<int>, stopped: bool)
    ensures stopped <==> 1 <= count <= 8 * |raw|
    ensures stopped ==> ports == Scan(raw, count)
    ensures !stopped ==> ports == Scan(raw, 8 * |raw|)
  {
    ports := [];
    var portNumber := 0;
    var k := 0;
    while k < |raw|
      invariant 0 <= k <= |raw| && portNumber == 8 * k
      invariant ports == Ports(raw, k)
      invariant !(1 <= count <= portNumber)
    {
      ghost var done := ports;
      OctetStart(raw[k], 8 * k, done);
      var slot := 0;
      while slot < 8
        invariant 0 <= slot <= 8 && portNumber == 8 * k + slot
        invariant ports == done + OctetPorts(raw[k], 8 * k, slot)
        invariant !(1 <= count <= portNumber)
      {
        ghost var before := ports;
        portNumber := portNumber + 1;
        if BitSet(raw[k], slot) {
          ports := ports + [portNumber];
        }
        OctetStep(raw[k], 8 * k, slot, done, before, ports);
        if portNumber == count {
          if slot + 1 == 8 {
            OctetEnd(raw, k, ports);
            ScanFull(raw, k + 1, count);
          } else {
            ScanPart(raw, k, slot + 1, count);
          }
          return ports, true;
        }
        slot := slot + 1;
      }
      OctetEnd(raw, k, ports);
      k := k + 1;
    }
    ScanFull(raw, |raw|, 8 * |raw|);
    return ports, false;
  }

  /** The last port the octet-checking parse covers. */
  function OctetCut(len: nat, count: int): (n: nat)
    ensures n <= 8 * len
  {
    if OctetStop(count, 8 * len) then count else 8 * len
  }

  /** The last port the slot-checking parse covers. */
  function SlotCut(len: nat, count: int): (n: nat)
    ensures n <= 8 * len
  {
    if 1 <= count <= 8 * len then count else 8 * len
  }

  /**
   * The shape shared by __parsePortList and __simpleParsePortList of linksys.py,
   * __simpleParsePortList of hp.py and cisco.py: for each i the list is reset,
   * octet i appended to raw_ports, and all of raw_ports scanned again; the first
   * scan that reaches the port count returns.
   */
  method ParseRescanning(pl: seq<bv8>, count: int, checkSlots: bool) returns (ports: seq<int>)
    ensures ports == Scan(pl, if checkSlots then SlotCut(|pl|, count) else OctetCut(|pl|, count))
  {
    ports := [];
    var i := 0;
    while i < |pl|
      invariant 0 <= i <= |pl|
      invariant ports == Ports(pl, i)
      invariant checkSlots ==> !(1 <= count <= 8 * i)
      invariant !checkSlots ==> !OctetStop(count, 8 * i)
    {
      var raw := pl[..i + 1];
      var stopped;
      if checkSlots {
        ports, stopped := ScanCheckingSlots(raw, count);
      } else {
        ports, stopped := ScanCheckingOctets(raw, count);
      }
      if stopped {
        ScanPrefix(pl, i + 1, count);
        return ports;
      }
      ScanFull(raw, i + 1, 8 * (i + 1));
      PortsPrefix(pl, i + 1, i + 1);
      i := i + 1;
    }
    ScanFull(pl, |pl|, 8 * |pl|);
  }

  /** A single scan of the whole list (hp.py:963-978, cisco.py:155-176). */
  method ScanAll(pl: seq<bv8>) returns (ports: seq<int>)
    ensures ports == Scan(pl, 8 * |pl|)
  {
    ports := [];
    var portNumber := 0;
    var k := 0;
    while k < |pl|
      invariant 0 <= k <= |pl| && portNumber == 8 * k
      invariant ports == Ports(pl, k)
    {
      ports := ScanOctet(pl[k], portNumber, ports);
      OctetEnd(pl, k, ports);
      portNumber := portNumber + 8;
      k := k + 1;
    }
    ScanFull(pl, |pl|, 8 * |pl|);
  }

  /** A zero octet holds no port, so skipping it changes nothing. */
  lemma {:induction false} ZeroOctetEmpty(base: int, slots: nat)
    requires slots <= 8
    ensures OctetPorts(0, base, slots) == []
    decreases slots
  {
    if slots > 0 {
      ZeroOctetEmpty(base, slots - 1);
    }
  }

  // ---------------------------------------------------------------------
  // getEmptyBitMap and printPortMap (switch.py:456-483).

  /** getEmptyBitMap(n): n div 8 zero octets (range() of a negative bound is empty). */
  method EmptyBitMap(numPorts: int) returns (s: seq<bv8>)
    ensures |s| == (if numPorts >= 0 then numPorts / 8 else 0)
    ensures forall i :: 0 <= i < |s| ==> s[i] == 0
  {
    s := [];
    var n := if numPorts >= 0 then numPorts / 8 else 0;
    var i := 0;
    while i < n
      invariant 0 <= i <= n && |s| == i
      invariant forall j :: 0 <= j < |s| ==> s[j] == 0
    {
      s := s + [0];
      i := i + 1;
    }
  }

  /** No port is a member of an empty bitmap. */
  lemma {:induction false} EmptyBitMapHasNoPorts(s: seq<bv8>, k: nat)
    requires forall i :: 0 <= i < |s| ==> s[i] == 0
    requires k <= |s|
    ensures Ports(s, k) == []
    decreases k
  {
    if k > 0 {
      EmptyBitMapHasNoPorts(s, k - 1);
      ZeroOctetEmpty(8 * (k - 1), 8);
    }
  }

  function BitChar(b: bv8, slot: int): char
    requires 0 <= slot < 8
  {
    if BitSet(b, slot) then '1' else '0'
  }

  lemma BitCharIsBit(b: bv8, slot: int)
    requires 0 <= slot < 8
    ensures BitChar(b, slot) == '1' <==> BitSet(b, slot)
  {
  }

  /** One octet as printPortMap prints it: a space, then its 8 bits MSB first. */
  function OctetMap(b: bv8): (s: string)
    ensures |s| == 9 && s[0] == ' '
    ensures forall slot :: 0 <= slot < 8 ==> s[slot + 1] == BitChar(b, slot)
  {
    [' ', BitChar(b, 0), BitChar(b, 1), BitChar(b, 2), BitChar(b, 3),
     BitChar(b, 4), BitChar(b, 5), BitChar(b, 6), BitChar(b, 7)]
  }

  function PortMap(pl: seq<bv8>, tagged: bool): string
    decreases |pl|
  {
    if |pl| == 0 then (if tagged then "t" else "u")
    else PortMap(pl[..|pl| - 1], tagged) + OctetMap(pl[|pl| - 1])
  }

  /** printPortMap(portList, Tagged) (switch.py:465-483). */
  method PrintPortMap(pl: seq<bv8>, tagged: bool) returns (s: string)
    ensures s == PortMap(pl, tagged)
  {
    s := "u";
    if tagged {
      s := "t";
    }
    var k := 0;
    while k < |pl|
      invariant 0 <= k <= |pl|
      invariant s == PortMap(pl[..k], tagged)
    {
      assert pl[..k + 1][..k] == pl[..k];
      var piece := OctetMapLoop(pl[k]);
      s := s + piece;
      k := k + 1;
    }
    assert pl[..k] == pl;
  }

  /** The slot loop of printPortMap for one octet. */
  method OctetMapLoop(b: bv8) returns (s: string)
    ensures s == OctetMap(b)
  {
    s := "";
    var slot := 0;
    while slot < 8
      invariant 0 <= slot <= 8 && |s| == (if slot == 0 then 0 else slot + 1)
      invariant slot > 0 ==> s[0] == ' '
      invariant forall j :: 0 <= j < slot ==> s[j + 1] == BitChar(b, j)
    {
      if slot == 0 {
        s := s + " ";
      }
      if BitSet(b, slot) {
        s := s + "1";
      } else {
        s := s + "0";
      }
      slot := slot + 1;
    }
  }

  lemma {:induction false} PortMapLength(pl: seq<bv8>, tagged: bool)
    ensures |PortMap(pl, tagged)| == 1 + 9 * |pl|
    ensures PortMap(pl, tagged)[0] == (if tagged then 't' else 'u')
    decreases |pl|
  {
    if |pl| > 0 {
      PortMapLength(pl[..|pl| - 1], tagged);
    }
  }

  /** Character j of octet k's piece is printed at 1 + 9k + j. */
  lemma {:induction false} PortMapChar(pl: seq<bv8>, tagged: bool, k: nat, j: nat)
    requires k < |pl| && j < 9
    ensures |PortMap(pl, tagged)| == 1 + 9 * |pl|
    ensures PortMap(pl, tagged)[1 + 9 * k + j] == OctetMap(pl[k])[j]
    decreases |pl|
  {
    var init := pl[..|pl| - 1];
    PortMapLength(init, tagged);
    PortMapLength(pl, tagged);
    if k < |init| {
      PortMapChar(init, tagged, k, j);
      assert init[k] == pl[k];
    }
  }

  /**
   * The printed map is 1 + 9 * len characters long and shows port p as '1'
   * exactly when it is a member.
   */
  lemma PortMapShowsPorts(pl: seq<bv8>, tagged: bool)
    ensures |PortMap(pl, tagged)| == 1 + 9 * |pl|
    ensures PortMap(pl, tagged)[0] == (if tagged then 't' else 'u')
    ensures forall p :: InList(pl, p) ==>
      PortMap(pl, tagged)[1 + 9 * Octet(p)] == ' ' &&
      (PortMap(pl, tagged)[2 + 9 * Octet(p) + Slot(p)] == '1' <==> IsSet(pl, p))
  {
    PortMapLength(pl, tagged);
    forall p | InList(pl, p)
      ensures PortMap(pl, tagged)[1 + 9 * Octet(p)] == ' '
      ensures PortMap(pl, tagged)[2 + 9 * Octet(p) + Slot(p)] == '1' <==> IsSet(pl, p)
    {
      PortMapPort(pl, tagged, p);
    }
  }

  lemma PortMapPort(pl: seq<bv8>, tagged: bool, p: int)
    requires InList(pl, p)
    ensures |PortMap(pl, tagged)| == 1 + 9 * |pl|
    ensures PortMap(pl, tagged)[1 + 9 * Octet(p)] == ' '
    ensures PortMap(pl, tagged)[2 + 9 * Octet(p) + Slot(p)] == '1' <==> IsSet(pl, p)
  {
    var k, slot := Octet(p), Slot(p);
    PortMapChar(pl, tagged, k, 0);
    PortMapChar(pl, tagged, k, slot + 1);
    assert OctetMap(pl[k])[slot + 1] == BitChar(pl[k], slot);
    BitCharIsBit(pl[k], slot);
  }
}
