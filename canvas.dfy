// The experiment canvas (gui/components/experiment/canvas.js): the subnet
// mask written out from a CIDR prefix length, the test that an interface
// circle lies inside its node circle, the node-id lookups on the SVG
// document, and the checks and attribute updates of edge creation. The SVG
// document is reduced to what these read and write: the ids of its circles,
// their edgeId and vlan attributes and the lines drawn.

module Canvas {
  import opened Common
  import opened JsCommon
  import opened Bits

  // ---------------------------------------------------------------------
  // getSubnetFromCIDR

  /** The octet values a prefix mask can have. */
  const MASK_OCTETS: set<nat> := {0, 128, 192, 224, 240, 248, 252, 254, 255}

  /** n copies of c. */
  function Repeat(c: char, n: nat): (s: string)
    ensures |s| == n && forall i :: 0 <= i < n ==> s[i] == c
  {
    if n == 0 then "" else Repeat(c, n - 1) + [c]
  }

  /** parseInt(s, 2) on text made of the digits '0' and '1'. */
  function BinValue(s: string): nat
    decreases |s|
  {
    if |s| == 0 then 0 else 2 * BinValue(s[..|s| - 1]) + (if s[|s| - 1] == '1' then 1 else 0)
  }

  /**
   * The bit string of getSubnetFromCIDR: a '1' for each pass of the loop
   * i < network, then a '0' for each pass of i < 32 - network; NaN makes both
   * loops stop at once.
   */
  function MaskBits(network: JsNumber): string
    requires !network.Infinite?
  {
    Repeat('1', LoopCount(network)) + Repeat('0', LoopCount(MinusJs(32, network)))
  }

  /** The bit string for a whole prefix length n. */
  function PrefixMask(n: int): string
  {
    MaskBits(Finite(n as real))
  }

  /** For a whole prefix length the bits are its count of ones and 32 minus it of zeros, each at least none. */
  lemma MaskBitsOfInt(n: int)
    ensures PrefixMask(n) ==
      Repeat('1', if n < 0 then 0 else n) + Repeat('0', if 32 - n < 0 then 0 else 32 - n)
  {
    LoopCountOfInt(n);
    assert MinusJs(32, Finite(n as real)) == Finite((32 - n) as real);
    LoopCountOfInt(32 - n);
  }

  /** The number of 8-character pieces of a string of length len, the last one possibly shorter. */
  function ChunkCount(len: nat): nat
  {
    (len + 7) / 8
  }

  /** Piece k: binString.substring(8k, 8k + 8). */
  function Chunk(b: string, k: nat): string
    requires 8 * k < |b|
  {
    b[8 * k..if 8 * k + 8 <= |b| then 8 * k + 8 else |b|]
  }

  /** The decimal values of the first c pieces. */
  function Texts(b: string, c: nat): (ts: seq<string>)
    requires 8 * c < |b| + 8
    ensures |ts| == c
    decreases c
  {
    if c == 0 then [] else Texts(b, c - 1) + [NatToString(BinValue(Chunk(b, c - 1)))]
  }

  /** Each text followed by a '.'. */
  function Terminated(ts: seq<string>): string
    decreases |ts|
  {
    if |ts| == 0 then "" else Terminated(ts[..|ts| - 1]) + ts[|ts| - 1] + "."
  }

  /** The octet texts of the mask of a prefix length given as text: Number(network) decides both loops. */
  function MaskTexts(network: string): seq<string>
    requires !NumberJs(network).Infinite?
  {
    var v := NumberJs(network);
    var b := MaskBits(v);
    Texts(b, ChunkCount(|b|))
  }

  /** The octet texts of the mask of a prefix length n. */
  function PrefixTexts(n: int): (ts: seq<string>)
    ensures 0 <= n <= 32 ==> |ts| == 4
  {
    var b := PrefixMask(n);
    MaskBitsOfInt(n);
    assert 0 <= n <= 32 ==> |b| == 32 && ChunkCount(|b|) == 4;
    Texts(b, ChunkCount(|b|))
  }

  /** A prefix length written in decimal gives the texts of that prefix. */
  lemma MaskTextsOfPrefix(n: int)
    ensures MaskTexts(IntToString(n)) == PrefixTexts(n)
  {
    NumberJsOfIntToString(n);
  }

  /**
   * getSubnetFromCIDR: the bits in pieces of eight, each written in decimal,
   * joined with '.'. For "Infinity" the first loop, and for "-Infinity" the
   * second, never ends, so the text must not read as an infinity.
   */
  method GetSubnetFromCIDR(network: string) returns (subnet: string)
    requires !NumberJs(network).Infinite?
    ensures subnet == JoinWith(MaskTexts(network), ".")
  {
    var n := NumberJs(network);
    var binString := OnesThenZeros(n);
    subnet := JoinPieces(binString);
  }

  /** The third loop of getSubnetFromCIDR and the substring after it: each piece of eight bits in decimal, joined with '.'. */
  method JoinPieces(binString: string) returns (subnet: string)
    ensures subnet == JoinWith(Texts(binString, ChunkCount(|binString|)), ".")
  {
    subnet := "";
    var j := 0;
    var k := 0;
    while j < |binString|
      invariant j == 8 * k && 8 * k < |binString| + 8
      invariant subnet == Terminated(Texts(binString, k))
      decreases |binString| - j
    {
      var octet := Substring(binString, j, j + 8);
      assert octet == Chunk(binString, k);
      subnet := subnet + NatToString(BinValue(octet));
      subnet := subnet + ".";
      assert Texts(binString, k + 1)[..k] == Texts(binString, k);
      j := j + 8;
      k := k + 1;
    }
    assert k == ChunkCount(|binString|);
    TerminatedJoin(Texts(binString, k));
    subnet := Substring(subnet, 0, |subnet| - 1);
  }

  /** The first two loops of getSubnetFromCIDR, comparing i with network and with 32 - network. */
  method OnesThenZeros(network: JsNumber) returns (binString: string)
    requires !network.Infinite?
    ensures binString == MaskBits(network)
  {
    binString := "";
    var i: nat := 0;
    while LessJs(i, network)
      invariant i <= LoopCount(network) && binString == Repeat('1', i)
      decreases LoopCount(network) - i
    {
      LoopCountMeaning(network, i);
      binString := binString + "1";
      i := i + 1;
    }
    LoopCountMeaning(network, i);
    var ones := binString;
    var remainingBits := MinusJs(32, network);
    i := 0;
    while LessJs(i, remainingBits)
      invariant i <= LoopCount(remainingBits) && binString == ones + Repeat('0', i)
      decreases LoopCount(remainingBits) - i
    {
      LoopCountMeaning(remainingBits, i);
      assert ones + Repeat('0', i) + "0" == ones + Repeat('0', i + 1);
      binString := binString + "0";
      i := i + 1;
    }
    LoopCountMeaning(remainingBits, i);
  }

  /** Dropping the last '.' of the terminated texts leaves them joined with '.'. */
  lemma {:induction false} TerminatedJoin(ts: seq<string>)
    ensures |Terminated(ts)| == |JoinWith(ts, ".")| + (if ts == [] then 0 else 1)
    ensures Substring(Terminated(ts), 0, |Terminated(ts)| - 1) == JoinWith(ts, ".")
    decreases |ts|
  {
    if |ts| > 1 {
      var init := ts[..|ts| - 1];
      TerminatedJoin(init);
      JoinWithSnoc(init, ts[|ts| - 1], ".");
      assert init + [ts[|ts| - 1]] == ts;
      assert Terminated(init) == JoinWith(init, ".") + ".";
    } else if |ts| == 1 {
      assert ts[..0] == [];
    }
  }

  /** The value of octet k of the mask of a /n prefix: m ones then 8 - m zeros, m = n - 8k clamped to 0..8. */
  function MaskOctet(n: int, k: nat): nat
  {
    var m := if n - 8 * k < 0 then 0 else if n - 8 * k > 8 then 8 else n - 8 * k;
    PowAtMost(8 - m);
    256 - Pow2(8 - m)
  }

  lemma {:induction false} PowAtMost(j: nat)
    requires j <= 8
    ensures Pow2(j) <= Pow2(8) == 256
    decreases 8 - j
  {
    if j < 8 {
      PowAtMost(j + 1);
    }
  }

  /** For a prefix length 0..32 the mask has 32 bits, the first n of them ones. */
  lemma PrefixBits(n: int)
    requires 0 <= n <= 32
    ensures |PrefixMask(n)| == 32
    ensures forall i :: 0 <= i < 32 ==> (PrefixMask(n)[i] == '1' <==> i < n)
  {
    MaskBitsOfInt(n);
  }

  /** Trailing zeros multiply a binary value by a power of two. */
  lemma {:induction false} BinZeros(s: string, z: nat)
    ensures BinValue(s + Repeat('0', z)) == BinValue(s) * Pow2(z)
    decreases z
  {
    if z > 0 {
      BinZeros(s, z - 1);
      var t := s + Repeat('0', z);
      assert t[|t| - 1] == '0';
      assert t[..|t| - 1] == s + Repeat('0', z - 1);
      assert 2 * (BinValue(s) * Pow2(z - 1)) == BinValue(s) * (2 * Pow2(z - 1));
    } else {
      assert s + Repeat('0', z) == s;
    }
  }

  /** m ones read as binary make 2^m - 1. */
  lemma {:induction false} BinOnes(m: nat)
    ensures BinValue(Repeat('1', m)) == Pow2(m) - 1
    decreases m
  {
    if m > 0 {
      BinOnes(m - 1);
      assert Repeat('1', m)[..m - 1] == Repeat('1', m - 1);
    }
  }

  /** Piece k of a /n mask is m ones then 8 - m zeros. */
  lemma MaskChunk(n: int, k: nat, m: nat)
    requires 0 <= n <= 32 && k < 4
    requires m == if n - 8 * k < 0 then 0 else if n - 8 * k > 8 then 8 else n - 8 * k
    ensures |PrefixMask(n)| == 32
    ensures Chunk(PrefixMask(n), k) == Repeat('1', m) + Repeat('0', 8 - m)
  {
    PrefixBits(n);
  }

  /** Octet k of the mask of a /n prefix is MaskOctet(n, k), one of the nine mask values. */
  lemma MaskOctetValue(n: int, k: nat)
    requires 0 <= n <= 32 && k < 4
    ensures BinValue(Chunk(PrefixMask(n), k)) == MaskOctet(n, k)
    ensures MaskOctet(n, k) in MASK_OCTETS
  {
    var m := if n - 8 * k < 0 then 0 else if n - 8 * k > 8 then 8 else n - 8 * k;
    ChunkValue(n, k, m);
    OctetArith(m);
    MaskValues(m);
  }

  lemma ChunkValue(n: int, k: nat, m: nat)
    requires 0 <= n <= 32 && k < 4
    requires m == if n - 8 * k < 0 then 0 else if n - 8 * k > 8 then 8 else n - 8 * k
    ensures |PrefixMask(n)| == 32 && BinValue(Chunk(PrefixMask(n), k)) == (Pow2(m) - 1) * Pow2(8 - m)
  {
    MaskChunk(n, k, m);
    var ones := Repeat('1', m);
    BinZeros(ones, 8 - m);
    BinOnes(m);
    var q := Pow2(8 - m);
    assert BinValue(Chunk(PrefixMask(n), k)) == BinValue(ones) * q;
    assert BinValue(ones) * q == (Pow2(m) - 1) * q;
  }

  lemma OctetArith(m: nat)
    requires m <= 8
    ensures (Pow2(m) - 1) * Pow2(8 - m) == 256 - Pow2(8 - m)
  {
    var p: int := Pow2(m);
    var q: int := Pow2(8 - m);
    PowAdd(m, 8 - m);
    assert p * q == 256;
    assert (p - 1) * q == p * q - q;
  }

  lemma {:induction false} PowAdd(a: nat, b: nat)
    ensures Pow2(a) * Pow2(b) == Pow2(a + b)
    decreases a
  {
    if a > 0 {
      PowAdd(a - 1, b);
    }
  }

  lemma MaskValues(m: nat)
    requires m <= 8
    ensures 256 - Pow2(8 - m) in MASK_OCTETS
  {
    assert Pow2(1) == 2 && Pow2(2) == 4 && Pow2(3) == 8 && Pow2(4) == 16;
    assert Pow2(5) == 32 && Pow2(6) == 64 && Pow2(7) == 128 && Pow2(8) == 256;
  }

  /**
   * For a prefix length 0..32 the subnet is four dotted octets: octet k is
   * the decimal text of MaskOctet(n, k)
   */
  lemma SubnetOctets(n: int, k: nat)
    requires 0 <= n <= 32 && k < 4
    ensures PrefixTexts(n)[k] == NatToString(MaskOctet(n, k))
  {
    var b := PrefixMask(n);
    assert |b| == 32;
    MaskOctetValue(n, k);
    TextsIndex(b, 4, k);
  }

  /** ... and the subnet splits at '.' into exactly those four texts. */
  lemma SubnetSplits(n: int)
    requires 0 <= n <= 32
    ensures Split(JoinWith(PrefixTexts(n), "."), '.') == PrefixTexts(n)
  {
    var ts := PrefixTexts(n);
    forall k | 0 <= k < |ts|
      ensures '.' !in ts[k]
    {
      SubnetOctets(n, k);
      assert forall c :: c in ts[k] ==> IsDigit(c);
    }
    assert "." == ['.'];
    SplitJoin(ts, '.');
  }

  /** Text k of the first c pieces is the value of piece k. */
  lemma {:induction false} TextsIndex(b: string, c: nat, k: nat)
    requires 8 * c < |b| + 8 && k < c
    ensures 8 * k < |b| && Texts(b, c)[k] == NatToString(BinValue(Chunk(b, k)))
    decreases c
  {
    if k < c - 1 {
      TextsIndex(b, c - 1, k);
    }
  }

  /** Text that is not a number (NaN) gives an empty subnet. */
  lemma NotANumberSubnet(network: string)
    requires NumberJs(network).NaN?
    ensures JoinWith(MaskTexts(network), ".") == ""
  {
  }

  // ---------------------------------------------------------------------
  // isWithinBounds

  /** A circle's centre and radius. */
  datatype Disc = Disc(cx: int, cy: int, r: int)

  /** A child of the node's group: its type attribute and its cx, cy, r attributes as text. */
  datatype SvgCircle = SvgCircle(kind: string, cx: string, cy: string, r: string)

  /** The circle parsed with parseInt, None when any coordinate is NaN. */
  function ParseDisc(cx: string, cy: string, r: string): Option<Disc>
  {
    var x := ParseIntJs(cx);
    var y := ParseIntJs(cy);
    var s := ParseIntJs(r);
    if x.Some? && y.Some? && s.Some? then Some(Disc(x.value, y.value, s.value)) else None
  }

  /** The last circle of type "computer", the one the loop of isWithinBounds leaves its values from. */
  function LastComputer(nodes: seq<SvgCircle>): (c: Option<SvgCircle>)
    ensures c.Some? ==> c.value in nodes && c.value.kind == "computer"
    ensures c.None? <==> forall i :: 0 <= i < |nodes| ==> nodes[i].kind != "computer"
    decreases |nodes|
  {
    if |nodes| == 0 then None
    else if nodes[|nodes| - 1].kind == "computer" then Some(nodes[|nodes| - 1])
    else LastComputer(nodes[..|nodes| - 1])
  }

  /** The four comparisons of isWithinBounds. */
  predicate InsideBox(inner: Disc, outer: Disc)
  {
    outer.cx + outer.r > inner.cx + inner.r && outer.cx - outer.r < inner.cx - inner.r &&
    outer.cy + outer.r > inner.cy + inner.r && outer.cy - outer.r < inner.cy - inner.r
  }

  /** x lies within the circle's horizontal extent, ends included. */
  predicate XSpan(x: int, d: Disc) { d.cx - d.r <= x <= d.cx + d.r }

  /** y lies within the circle's vertical extent, ends included. */
  predicate YSpan(y: int, d: Disc) { d.cy - d.r <= y <= d.cy + d.r }

  /** x lies strictly within the circle's horizontal extent. */
  predicate XInside(x: int, d: Disc) { d.cx - d.r < x < d.cx + d.r }

  /** y lies strictly within the circle's vertical extent. */
  predicate YInside(y: int, d: Disc) { d.cy - d.r < y < d.cy + d.r }

  /** Every point of the inner circle's bounding box lies strictly inside the outer circle's box. */
  ghost predicate BoxWithin(inner: Disc, outer: Disc)
  {
    (forall x :: XSpan(x, inner) ==> XInside(x, outer)) && (forall y :: YSpan(y, inner) ==> YInside(y, outer))
  }

  /** For a circle of non-negative radius the comparisons say exactly that its box is strictly inside. */
  lemma InsideBoxMeaning(inner: Disc, outer: Disc)
    requires inner.r >= 0
    ensures InsideBox(inner, outer) <==> BoxWithin(inner, outer)
  {
    if BoxWithin(inner, outer) {
      assert XSpan(inner.cx - inner.r, inner) && XSpan(inner.cx + inner.r, inner);
      assert YSpan(inner.cy - inner.r, inner) && YSpan(inner.cy + inner.r, inner);
    }
  }

  /** What isWithinBounds answers: both circles parse, there is a computer circle, and the comparisons hold. */
  predicate WithinBounds(icx: string, icy: string, ir: string, nodes: seq<SvgCircle>)
  {
    var inner := ParseDisc(icx, icy, ir);
    var node := LastComputer(nodes);
    inner.Some? && node.Some? && ParseDisc(node.value.cx, node.value.cy, node.value.r).Some? &&
    InsideBox(inner.value, ParseDisc(node.value.cx, node.value.cy, node.value.r).value)
  }

  /** isWithinBounds, the dragged interface's attributes and its group's children given. */
  method IsWithinBounds(icx: string, icy: string, ir: string, nodes: seq<SvgCircle>) returns (r: bool)
    ensures r <==> WithinBounds(icx, icy, ir, nodes)
  {
    var x, y, s := ReadCoordinates(icx, icy, ir);
    var nx, ny, ns := LastComputerCoordinates(nodes);
    r := x.Some? && y.Some? && s.Some? && nx.Some? && ny.Some? && ns.Some? &&
      InsideBox(Disc(x.value, y.value, s.value), Disc(nx.value, ny.value, ns.value));
  }

  /** The loop of isWithinBounds: every computer circle overwrites the values, so the last one's stay. */
  method LastComputerCoordinates(nodes: seq<SvgCircle>) returns (nx: Option<int>, ny: Option<int>, ns: Option<int>)
    ensures LastComputer(nodes).None? ==> nx.None? && ny.None? && ns.None?
    ensures LastComputer(nodes).Some? ==>
      var c := LastComputer(nodes).value;
      (ParseDisc(c.cx, c.cy, c.r).Some? <==> nx.Some? && ny.Some? && ns.Some?) &&
      (ParseDisc(c.cx, c.cy, c.r).Some? ==> ParseDisc(c.cx, c.cy, c.r).value == Disc(nx.value, ny.value, ns.value))
  {
    nx, ny, ns := None, None, None;
    for i := 0 to |nodes|
      invariant LastComputer(nodes[..i]).None? ==> nx.None? && ny.None? && ns.None?
      invariant LastComputer(nodes[..i]).Some? ==>
        var c := LastComputer(nodes[..i]).value;
        nx == ParseIntJs(c.cx) && ny == ParseIntJs(c.cy) && ns == ParseIntJs(c.r)
    {
      assert nodes[..i + 1][..i] == nodes[..i];
      if nodes[i].kind == "computer" {
        nx, ny, ns := ReadCoordinates(nodes[i].cx, nodes[i].cy, nodes[i].r);
      }
    }
    assert nodes[..|nodes|] == nodes;
  }

  /** The three parseInt calls on a circle's cx, cy and r; all three numbers exactly when ParseDisc reads the circle. */
  method ReadCoordinates(cx: string, cy: string, r: string) returns (x: Option<int>, y: Option<int>, s: Option<int>)
    ensures x == ParseIntJs(cx) && y == ParseIntJs(cy) && s == ParseIntJs(r)
    ensures ParseDisc(cx, cy, r).Some? <==> x.Some? && y.Some? && s.Some?
    ensures ParseDisc(cx, cy, r).Some? ==> ParseDisc(cx, cy, r).value == Disc(x.value, y.value, s.value)
  {
    x := ParseIntJs(cx);
    y := ParseIntJs(cy);
    s := ParseIntJs(r);
  }

  /** A group without a computer circle leaves the node's values undefined: the test is false. */
  lemma NoComputerOutOfBounds(icx: string, icy: string, ir: string, nodes: seq<SvgCircle>)
    requires forall i :: 0 <= i < |nodes| ==> nodes[i].kind != "computer"
    ensures !WithinBounds(icx, icy, ir, nodes)
  {
  }

  // ---------------------------------------------------------------------
  // validateNodeId, validateNodeExistence, doCreateEdge

  /** A line drawn for an edge: its id, its VLAN and the ids of the two interfaces it joins. */
  datatype Line = Line(id: string, vlan: string, edgeStart: string, edgeEnd: string)

  /** An alert doCreateEdge shows before returning without drawing. */
  datatype Refusal = NoName | SameNode | NoStartNode | NoStartInterface | NoEndNode | NoEndInterface

  /**
   * The edgeId attribute after an edge id is added: the new id when the old
   * value is empty, else the old value, a space and the new id. A missing
   * attribute reads as null, which is not "" and is written as "null".
   */
  function AddedEdgeId(before: Option<string>, id: string): string
  {
    if before == Some("") then id
    else (if before.Some? then before.value else "null") + " " + id
  }

  /** The edgeId attribute is a space-separated list that gains the new id at its end. */
  lemma AddedEdgeIdList(before: string, id: string)
    requires ' ' !in id
    ensures Split(AddedEdgeId(Some(before), id), ' ') == (if before == "" then [] else Split(before, ' ')) + [id]
  {
    SplitWhole(id, ' ');
    if before != "" {
      SplitAround(before, id, ' ');
      assert before + " " + id == before + [' '] + id;
    }
  }

  class SvgCanvas {
    /** The ids of the circles of the SVG document, in document order. */
    var circles: seq<string>
    /** The edgeId attribute of the circles that have one. */
    var edgeIds: map<string, string>
    /** The vlan attribute of the circles that have one. */
    var vlans: map<string, string>
    /** The edge lines appended to the document. */
    var lines: seq<Line>
    /** The counter that makes edge ids unique. */
    var valueCounter: int

    constructor ()
      ensures circles == [] && edgeIds == map[] && vlans == map[] && lines == [] && valueCounter == 0
    {
      circles := [];
      edgeIds := map[];
      vlans := map[];
      lines := [];
      valueCounter := 0;
    }

    /** validateNodeId: true iff no circle has the id. */
    method ValidateNodeId(nodeID: string) returns (r: bool)
      ensures r <==> nodeID !in circles
    {
      for i := 0 to |circles|
        invariant nodeID !in circles[..i]
      {
        if circles[i] == nodeID {
          return false;
        }
      }
      assert circles[..|circles|] == circles;
      return true;
    }

    /** validateNodeExistence: true iff some circle has the id. */
    method ValidateNodeExistence(nodeID: string) returns (r: bool)
      ensures r <==> nodeID in circles
    {
      for i := 0 to |circles|
        invariant nodeID !in circles[..i]
      {
        if circles[i] == nodeID {
          return true;
        }
      }
      assert circles[..|circles|] == circles;
      return false;
    }

    /** The refusal doCreateEdge alerts, in the order it checks; None when the edge is drawn. */
    function Refused(name: string, startNode: string, startIF: string, endNode: string, endIF: string): Option<Refusal>
      reads this
    {
      if name == "" then Some(NoName)
      else if startNode == endNode then Some(SameNode)
      else if startNode !in circles then Some(NoStartNode)
      else if startNode + startIF !in circles then Some(NoStartInterface)
      else if endNode !in circles then Some(NoEndNode)
      else if endNode + endIF !in circles then Some(NoEndInterface)
      else None
    }

    /**
     * doCreateEdge with the form's values. The counter moves on once the
     * name is given, even when a later check refuses; only a drawn edge
     * changes the document.
     */
    method DoCreateEdge(name: string, startNode: string, startIF: string, endNode: string, endIF: string)
      returns (refusal: Option<Refusal>)
      modifies this
      ensures refusal == old(Refused(name, startNode, startIF, endNode, endIF))
      ensures circles == old(circles)
      ensures valueCounter == if name == "" then old(valueCounter) else old(valueCounter) + 1
      ensures refusal.Some? ==> edgeIds == old(edgeIds) && vlans == old(vlans) && lines == old(lines)
      ensures refusal.None? ==>
        var id := name + IntToString(old(valueCounter));
        var s := startNode + startIF;
        var e := endNode + endIF;
        var afterStart := old(edgeIds)[s := AddedEdgeId(Lookup(old(edgeIds), s), id)];
        lines == old(lines) + [Line(id, name, s, e)] &&
        edgeIds == afterStart[e := AddedEdgeId(Lookup(afterStart, e), id)] &&
        vlans == old(vlans)[s := name][e := name]
    {
      if name == "" {
        return Some(NoName);
      }
      var edgeID := name + IntToString(valueCounter);
      valueCounter := valueCounter + 1;
      if startNode == endNode {
        return Some(SameNode);
      }
      var found := ValidateNodeExistence(startNode);
      if !found {
        return Some(NoStartNode);
      }
      found := ValidateNodeExistence(startNode + startIF);
      if !found {
        return Some(NoStartInterface);
      }
      found := ValidateNodeExistence(endNode);
      if !found {
        return Some(NoEndNode);
      }
      found := ValidateNodeExistence(endNode + endIF);
      if !found {
        return Some(NoEndInterface);
      }
      var s := startNode + startIF;
      var e := endNode + endIF;
      lines := lines + [Line(edgeID, name, s, e)];
      edgeIds := edgeIds[s := AddedEdgeId(Lookup(edgeIds, s), edgeID)];
      edgeIds := edgeIds[e := AddedEdgeId(Lookup(edgeIds, e), edgeID)];
      vlans := vlans[s := name];
      vlans := vlans[e := name];
      return None;
    }
  }

  /** getAttributeNS on the attribute map: None for a missing attribute. */
  function Lookup(attributes: map<string, string>, id: string): (r: Option<string>)
    ensures r.Some? <==> id in attributes
    ensures r.Some? ==> r.value == attributes[id]
  {
    if id in attributes then Some(attributes[id]) else None
  }
}
