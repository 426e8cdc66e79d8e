// The Force10 driver (lib/hardware/switches/force10.py): its three port-list
// parsers, the bridge-port to ifIndex maps of the E1200, the naming of the
// chassis temperature sensors and the verdict of the cable (TDR) test. SNMP
// walks and the telnet exchange of the TDR test are inputs.

module Force10 {
  import opened Common
  import opened PortList
  import opened HenVlan
  import opened SwitchModel

  // ---------------------------------------------------------------------
  // __parsePortList and __simpleParsePortList: one pass over the octets,
  // skipping zero octets, the eight slot tests written out one by one.

  /** One of the eight unrolled slot tests: port base + slot + 1 is appended when its bit is set. */
  method SlotTest(b: bv8, base: int, slot: nat, done: seq<int>, before: seq<int>) returns (ports: seq<int>)
    requires slot < 8 && before == done + OctetPorts(b, base, slot)
    ensures ports == done + OctetPorts(b, base, slot + 1)
  {
    ports := before;
    if BitSet(b, slot) {
      ports := ports + [base + slot + 1];
    }
    OctetStep(b, base, slot, done, before, ports);
  }

  /** The eight unrolled slot tests over a non-zero octet; base is port_number before it. */
  method UnrolledOctet(b: bv8, base: int, done: seq<int>) returns (ports: seq<int>)
    ensures ports == done + OctetPorts(b, base, SLOTS)
  {
    OctetStart(b, base, done);
    ports := SlotTest(b, base, 0, done, done);
    ports := SlotTest(b, base, 1, done, ports);
    ports := SlotTest(b, base, 2, done, ports);
    ports := SlotTest(b, base, 3, done, ports);
    ports := SlotTest(b, base, 4, done, ports);
    ports := SlotTest(b, base, 5, done, ports);
    ports := SlotTest(b, base, 6, done, ports);
    ports := SlotTest(b, base, 7, done, ports);
  }

  /** The single pass: every set port, ascending; a zero octet only advances port_number. */
  method ScanSkippingZeros(pl: seq<bv8>) returns (numbers: seq<int>)
    ensures numbers == Scan(pl, 8 * |pl|)
  {
    numbers := [];
    var portNumber := 0;
    var k := 0;
    while k < |pl|
      invariant 0 <= k <= |pl| && portNumber == 8 * k
      invariant numbers == Ports(pl, k)
    {
      if pl[k] != 0 {
        numbers := UnrolledOctet(pl[k], portNumber, numbers);
      } else {
        ZeroOctetEmpty(portNumber, SLOTS);
        assert numbers == numbers + OctetPorts(pl[k], 8 * k, SLOTS);
      }
      OctetEnd(pl, k, numbers);
      portNumber := portNumber + 8;
      k := k + 1;
    }
    ScanFull(pl, |pl|, 8 * |pl|);
  }

  /** __parsePortList: Port(n, tagged, n) for every set port n. */
  method ParsePortList(pl: seq<bv8>, tagged: bool) returns (ports: seq<Port>)
    ensures ports == TaggedPorts(Scan(pl, 8 * |pl|), tagged)
  {
    var numbers := ScanSkippingZeros(pl);
    ports := TaggedPorts(numbers, tagged);
  }

  /**
   * __slowparsePortList: list reset, octet i appended and all of raw_ports
   * scanned again for each i, zero octets skipped by advancing port_number.
   */
  method SlowParsePortList(pl: seq<bv8>, tagged: bool) returns (ports: seq<Port>)
    ensures ports == TaggedPorts(Scan(pl, 8 * |pl|), tagged)
  {
    var numbers: seq<int> := [];
    var i := 0;
    while i < |pl|
      invariant 0 <= i <= |pl|
      invariant numbers == Ports(pl, i)
    {
      var raw := pl[..i + 1];
      numbers := RescanSkippingZeros(raw);
      ScanFull(raw, i + 1, 8 * (i + 1));
      PortsPrefix(pl, i + 1, i + 1);
      i := i + 1;
    }
    ScanFull(pl, |pl|, 8 * |pl|);
    ports := TaggedPorts(numbers, tagged);
  }

  /** One scan of __slowparsePortList: the slot loop for a non-zero octet, eight ports skipped otherwise. */
  method RescanSkippingZeros(raw: seq<bv8>) returns (numbers: seq<int>)
    ensures numbers == Scan(raw, 8 * |raw|)
  {
    numbers := [];
    var portNumber := 0;
    var k := 0;
    while k < |raw|
      invariant 0 <= k <= |raw| && portNumber == 8 * k
      invariant numbers == Ports(raw, k)
    {
      if raw[k] != 0 {
        numbers := ScanOctet(raw[k], portNumber, numbers);
      } else {
        ZeroOctetEmpty(portNumber, SLOTS);
        assert numbers == numbers + OctetPorts(raw[k], 8 * k, SLOTS);
      }
      OctetEnd(raw, k, numbers);
      portNumber := portNumber + 8;
      k := k + 1;
    }
    ScanFull(raw, |raw|, 8 * |raw|);
  }

  /** Both parsers hold exactly the set ports of the list, ascending. */
  lemma ParsedPorts(pl: seq<bv8>, tagged: bool, q: Port)
    ensures q in TaggedPorts(Scan(pl, 8 * |pl|), tagged) <==>
      q.tagged == tagged && q.number == Num(q.internalId) && InList(pl, q.internalId) && IsSet(pl, q.internalId)
    ensures Ascending(Scan(pl, 8 * |pl|))
  {
    ScanMembers(pl, 8 * |pl|);
    TaggedPortsMembers(Scan(pl, 8 * |pl|), tagged, q);
  }

  // ---------------------------------------------------------------------
  // The bridge-port to ifIndex maps of Force10E1200Switch.

  /** portIfIndexMap after the walk: a later row for the same port wins. */
  function Forward(rows: seq<IfIndexRow>): map<int, int>
    decreases |rows|
  {
    if |rows| == 0 then map[]
    else
      var last := rows[|rows| - 1];
      Forward(rows[..|rows| - 1])[last.port := last.ifIndex]
  }

  /** portIfIndexMapRev after the walk: a later row for the same ifIndex wins. */
  function Backward(rows: seq<IfIndexRow>): map<int, int>
    decreases |rows|
  {
    if |rows| == 0 then map[]
    else
      var last := rows[|rows| - 1];
      Backward(rows[..|rows| - 1])[last.ifIndex := last.port]
  }

  lemma {:induction false} ForwardMeaning(rows: seq<IfIndexRow>, k: int)
    ensures k in Forward(rows) <==> exists i :: 0 <= i < |rows| && rows[i].port == k
    ensures k in Forward(rows) ==>
      exists i :: 0 <= i < |rows| && rows[i] == IfIndexRow(k, Forward(rows)[k]) &&
        forall j :: i < j < |rows| ==> rows[j].port != k
    decreases |rows|
  {
    if |rows| > 0 {
      var n := |rows| - 1;
      var init := rows[..n];
      ForwardMeaning(init, k);
      assert forall i :: 0 <= i < n ==> init[i] == rows[i];
      if rows[n].port != k && exists i :: 0 <= i < |rows| && rows[i].port == k {
        var i :| 0 <= i < |rows| && rows[i].port == k;
        assert i < n && init[i].port == k;
      }
    }
  }

  lemma {:induction false} BackwardMeaning(rows: seq<IfIndexRow>, v: int)
    ensures v in Backward(rows) <==> exists i :: 0 <= i < |rows| && rows[i].ifIndex == v
    ensures v in Backward(rows) ==>
      exists i :: 0 <= i < |rows| && rows[i] == IfIndexRow(Backward(rows)[v], v) &&
        forall j :: i < j < |rows| ==> rows[j].ifIndex != v
    decreases |rows|
  {
    if |rows| > 0 {
      var n := |rows| - 1;
      var init := rows[..n];
      BackwardMeaning(init, v);
      assert forall i :: 0 <= i < n ==> init[i] == rows[i];
      if rows[n].ifIndex != v && exists i :: 0 <= i < |rows| && rows[i].ifIndex == v {
        var i :| 0 <= i < |rows| && rows[i].ifIndex == v;
        assert i < n && init[i].ifIndex == v;
      }
    }
  }

  /** No two rows share a bridge port, and no two share an ifIndex. */
  predicate OneToOne(rows: seq<IfIndexRow>)
  {
    forall i, j :: 0 <= i < j < |rows| ==> rows[i].port != rows[j].port && rows[i].ifIndex != rows[j].ifIndex
  }

  /** The walk's two maps are inverse to each other when the table is one-to-one. */
  lemma MapsInverse(rows: seq<IfIndexRow>)
    requires OneToOne(rows)
    ensures forall k :: k in Forward(rows) ==> Forward(rows)[k] in Backward(rows) && Backward(rows)[Forward(rows)[k]] == k
    ensures forall v :: v in Backward(rows) ==> Backward(rows)[v] in Forward(rows) && Forward(rows)[Backward(rows)[v]] == v
  {
    forall k | k in Forward(rows)
      ensures Forward(rows)[k] in Backward(rows) && Backward(rows)[Forward(rows)[k]] == k
    {
      ForwardMeaning(rows, k);
      var v := Forward(rows)[k];
      BackwardMeaning(rows, v);
    }
    forall v | v in Backward(rows)
      ensures Backward(rows)[v] in Forward(rows) && Forward(rows)[Backward(rows)[v]] == v
    {
      BackwardMeaning(rows, v);
      var k := Backward(rows)[v];
      ForwardMeaning(rows, k);
    }
  }

  /** The ifIndex of each port through the map; None where a port is missing (a KeyError). */
  function Lookup(numbers: seq<int>, m: map<int, int>): (r: Option<seq<int>>)
    ensures r.Some? ==> |r.value| == |numbers|
    decreases |numbers|
  {
    if |numbers| == 0 then Some([])
    else if numbers[0] !in m then None
    else match Lookup(numbers[1..], m)
      case None => None
      case Some(rest) => Some([m[numbers[0]]] + rest)
  }

  lemma {:induction false} LookupMeaning(numbers: seq<int>, m: map<int, int>)
    ensures Lookup(numbers, m).Some? <==> forall i :: 0 <= i < |numbers| ==> numbers[i] in m
    ensures Lookup(numbers, m).Some? ==>
      forall i :: 0 <= i < |numbers| ==> numbers[i] in m && Lookup(numbers, m).value[i] == m[numbers[i]]
    decreases |numbers|
  {
    if |numbers| > 0 {
      LookupMeaning(numbers[1..], m);
      assert forall i :: 1 <= i < |numbers| ==> numbers[i] == numbers[1..][i - 1];
    }
  }

  /** Force10E1200Switch with the two maps its constructor fills from the walk. */
  class Force10E1200 {
    var portIfIndexMap: map<int, int>
    var portIfIndexMapRev: map<int, int>

    constructor (rows: seq<IfIndexRow>)
      ensures portIfIndexMap == Forward(rows) && portIfIndexMapRev == Backward(rows)
    {
      var fwd, rev := BuildMaps(rows);
      portIfIndexMap := fwd;
      portIfIndexMapRev := rev;
    }

    /** __simpleParsePortList: the ifIndex of every set port, ascending by port; None on a KeyError. */
    method SimpleParsePortList(pl: seq<bv8>) returns (r: Option<seq<int>>)
      ensures r == Lookup(Scan(pl, 8 * |pl|), portIfIndexMap)
    {
      var numbers := ScanSkippingZeros(pl);
      var out: seq<int> := [];
      var i := 0;
      LookupMeaning(numbers, portIfIndexMap);
      while i < |numbers|
        invariant 0 <= i <= |numbers| && |out| == i
        invariant forall j :: 0 <= j < i ==> numbers[j] in portIfIndexMap && out[j] == portIfIndexMap[numbers[j]]
      {
        if numbers[i] !in portIfIndexMap {
          return None;
        }
        out := out + [portIfIndexMap[numbers[i]]];
        i := i + 1;
      }
      assert Lookup(numbers, portIfIndexMap).value == out;
      return Some(out);
    }
  }

  /** The constructor's walk over the rows. */
  method BuildMaps(rows: seq<IfIndexRow>) returns (fwd: map<int, int>, rev: map<int, int>)
    ensures fwd == Forward(rows) && rev == Backward(rows)
  {
    fwd, rev := map[], map[];
    var i := 0;
    while i < |rows|
      invariant 0 <= i <= |rows|
      invariant fwd == Forward(rows[..i]) && rev == Backward(rows[..i])
    {
      assert rows[..i + 1][..i] == rows[..i];
      fwd := fwd[rows[i].port := rows[i].ifIndex];
      rev := rev[rows[i].ifIndex := rows[i].port];
      i := i + 1;
    }
    assert rows[..|rows|] == rows;
  }

  // ---------------------------------------------------------------------
  // getSensorReadings: the sensor name of a chassis slot.

  /** The name of the temperature sensor of physical slot n. */
  function SensorName(n: int): string
  {
    if n == 8 then "fantray0"
    else if n == 9 then "fantray1"
    else if n < 8 then "card" + IntToString(n - 1)
    else "card" + IntToString(n - 3)
  }

  /** The keys of SENSOR_DESCRIPTIONS['temperature']: two fan trays and cards 0 to 14. */
  predicate Described(name: string)
  {
    name == "fantray0" || name == "fantray1" || exists k :: 0 <= k <= 14 && name == "card" + IntToString(k)
  }

  lemma CardNames(x: string, y: string)
    ensures "card" + x == "card" + y ==> x == y
    ensures "card" + x != "fantray0" && "card" + x != "fantray1"
  {
    if "card" + x == "card" + y {
      assert x == ("card" + x)[4..];
      assert y == ("card" + y)[4..];
    }
    assert ("card" + x)[0] == 'c';
  }

  /** No two slots share a sensor name. */
  lemma SensorNameInjective(a: int, b: int)
    requires SensorName(a) == SensorName(b)
    ensures a == b
  {
    var ka := if a < 8 then a - 1 else a - 3;
    var kb := if b < 8 then b - 1 else b - 3;
    CardNames(IntToString(ka), IntToString(kb));
    CardNames(IntToString(kb), IntToString(ka));
    IntToStringInjective(ka, kb);
  }

  /** A slot's sensor is one the switch describes exactly for slots 1 to 17. */
  lemma DescribedSlots(n: int)
    ensures Described(SensorName(n)) <==> 1 <= n <= 17
  {
    var kn := if n < 8 then n - 1 else n - 3;
    if n != 8 && n != 9 {
      CardNames(IntToString(kn), "");
      if Described(SensorName(n)) {
        var k :| 0 <= k <= 14 && SensorName(n) == "card" + IntToString(k);
        CardNames(IntToString(kn), IntToString(k));
        IntToStringInjective(kn, k);
      }
      if 1 <= n <= 17 {
        assert SensorName(n) == "card" + IntToString(kn);
      }
    }
  }

  // ---------------------------------------------------------------------
  // getPortTdr: the report text and its verdict.

  const TDR_HEADER := "TDR result :"
  const TDR_ERROR := "\nError running TDR test"

  /** The lines of the output that mention "Pair", each on a new line, leading whitespace removed. */
  /** What one output line adds to the report: the line, stripped, when it holds "Pair". */
  function PairPiece(line: string): string
  {
    if Find(line, "Pair") != -1 then "\n" + LStrip(line) else ""
  }

  function PairReport(lines: seq<string>): string
    decreases |lines|
  {
    if |lines| == 0 then ""
    else PairReport(lines[..|lines| - 1]) + PairPiece(lines[|lines| - 1])
  }

  /** One more line of output extends a report built on the first ones. */
  lemma PairReportStep(start: string, lines: seq<string>, i: int)
    requires 0 <= i < |lines|
    ensures start + PairReport(lines[..i + 1]) == start + PairReport(lines[..i]) + PairPiece(lines[i])
  {
    assert lines[..i + 1][..i] == lines[..i];
  }

  /** The text getPortTdr returns for the expect code and the output read after it. */
  function TdrText(code: int, output: string): string
  {
    if code != 1 then TDR_ERROR else TDR_HEADER + PairReport(Split(output, '\n'))
  }

  /** Four pairs OK and four terminated. */
  predicate TdrPassed(s: string)
  {
    Count(s, "OK") == 4 && Count(s, "Terminated") == 4
  }

  /** getPortTdr after the telnet exchange: the verdict and the report. */
  method PortTdr(code: int, output: string) returns (passed: bool, s: string)
    ensures s == TdrText(code, output)
    ensures passed == TdrPassed(s)
  {
    s := TDR_HEADER;
    if code != 1 {
      s := TDR_ERROR;
    }
    if code == 1 {
      s := AppendPairLines(s, Split(output, '\n'));
    }
    passed := Count(s, "OK") == 4 && Count(s, "Terminated") == 4;
  }

  /** The loop of getPortTdr: each output line holding "Pair" is appended, stripped, on a line of its own. */
  method AppendPairLines(start: string, lines: seq<string>) returns (s: string)
    ensures s == start + PairReport(lines)
  {
    s := start;
    var i := 0;
    while i < |lines|
      invariant 0 <= i <= |lines|
      invariant s == start + PairReport(lines[..i])
    {
      PairReportStep(start, lines, i);
      if Find(lines[i], "Pair") != -1 {
        s := s + ("\n" + LStrip(lines[i]));
      }
      assert s == start + PairReport(lines[..i]) + PairPiece(lines[i]);
      i := i + 1;
    }
    assert lines[..|lines|] == lines;
  }

  /** A text with no 'O' counts no "OK". */
  lemma NoOK(s: string)
    requires 'O' !in s
    ensures Count(s, "OK") == 0
  {
    CountWithoutFirstChar(s, "OK", 0);
  }

  /** A failed exchange never passes, and neither does an output without "Pair" lines. */
  lemma TdrPassedNeedsPairs(code: int, output: string)
    requires TdrPassed(TdrText(code, output))
    ensures code == 1 && PairReport(Split(output, '\n')) != ""
  {
    NoOK(TDR_ERROR);
    NoOK(TDR_HEADER);
    assert TDR_HEADER + "" == TDR_HEADER;
  }
}
