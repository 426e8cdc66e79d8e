/**
 * The CRC-16 of the TinyOS serial packets written and read by
 * lib/auxiliary/serial.py: CRC-16/CCITT with polynomial 0x1021, initial
 * value 0 and the most significant bit first (the "XMODEM" parameters),
 * computed one byte at a time. This is not the reflected FCS-16 of RFC 1662.
 *
 * The reference definition is the bit-serial 16-bit shift register (FeedBit);
 * the methods follow serial.py's byte-at-a-time loop and are proved to compute
 * the reference.
 */
module SerialCrc {
  import opened Common

  /** The generator polynomial x^16 + x^12 + x^5 + 1, without its x^16 term. */
  const POLY: bv16 := 0x1021

  // ---------------------------------------------------------------------
  // Reference definition: the bit-serial shift register.

  /**
   * Feeds one message bit into the 16-bit register: the register moves up one
   * place, and the polynomial is added when the bit leaving it (bit 15)
   * differs from the incoming message bit.
   */
  function FeedBit(reg: bv16, bit: bool): bv16
  {
    var shifted := reg << 1;
    if (reg & 0x8000 != 0) != bit then shifted ^ POLY else shifted
  }

  /** Feeds the top n bits of m, most significant first. */
  function FeedBits(reg: bv16, m: bv8, n: nat): bv16
    decreases n
  {
    if n == 0 then reg else FeedBits(FeedBit(reg, m & 0x80 != 0), m << 1, n - 1)
  }

  /** The register after the eight bits of the octet b, most significant first. */
  function FeedByte(reg: bv16, b: bv8): bv16
  {
    FeedBits(reg, b, 8)
  }

  /** The CRC of the whole sequence s, starting from register value 0. */
  function Crc(s: seq<byte>): bv16
    decreases |s|
  {
    if |s| == 0 then 0 else FeedByte(Crc(s[..|s| - 1]), s[|s| - 1] as bv8)
  }

  lemma CrcSnoc(s: seq<byte>, b: byte)
    ensures Crc(s + [b]) == FeedByte(Crc(s), b as bv8)
  {
    assert (s + [b])[..|s|] == s;
  }

  // ---------------------------------------------------------------------
  // serial.py's byte-at-a-time computation.

  /** One round of calc_byte (serial.py:38-41): shift up, adding the polynomial when bit 15 was set. */
  function Round(c: bv32): bv32
  {
    if c & 0x8000 == 0x8000 then (c << 1) ^ 0x1021 else c << 1
  }

  /** The low 16 bits of calc_byte's register. */
  function Low(c: bv32): bv16
  {
    (c & 0xFFFF) as bv16
  }

  lemma LowShift(c: bv32)
    ensures Low(c << 1) == Low(c) << 1
  {
  }

  lemma LowPoly(c: bv32)
    ensures Low((c << 1) ^ 0x1021) == (Low(c) << 1) ^ POLY
  {
  }

  lemma PendingBits(reg: bv16, rest: bv8)
    ensures (reg ^ ((rest as bv16) << 8)) << 1 == (reg << 1) ^ (((rest << 1) as bv16) << 8)
  {
  }

  /** Bit 15 of calc_byte's register is the reference register's bit 15 XOR the next message bit. */
  lemma TopBit(c: bv32, reg: bv16, rest: bv8)
    requires Low(c) == reg ^ ((rest as bv16) << 8)
    ensures (c & 0x8000 == 0x8000) == ((reg & 0x8000 != 0) != (rest & 0x80 != 0))
  {
  }

  lemma XorSwap(x: bv16, y: bv16, p: bv16)
    ensures (x ^ y) ^ p == (x ^ p) ^ y
  {
  }

  lemma RoundSet(c: bv32, reg: bv16, rest: bv8)
    requires Low(c) == reg ^ ((rest as bv16) << 8) && c & 0x8000 == 0x8000
    ensures Low((c << 1) ^ 0x1021) == FeedBit(reg, rest & 0x80 != 0) ^ (((rest << 1) as bv16) << 8)
  {
    TopBit(c, reg, rest);
    assert FeedBit(reg, rest & 0x80 != 0) == (reg << 1) ^ POLY;
    LowPoly(c);
    PendingBits(reg, rest);
    XorSwap(reg << 1, ((rest << 1) as bv16) << 8, POLY);
  }

  lemma RoundClear(c: bv32, reg: bv16, rest: bv8)
    requires Low(c) == reg ^ ((rest as bv16) << 8) && c & 0x8000 != 0x8000
    ensures Low(c << 1) == FeedBit(reg, rest & 0x80 != 0) ^ (((rest << 1) as bv16) << 8)
  {
    TopBit(c, reg, rest);
    assert FeedBit(reg, rest & 0x80 != 0) == reg << 1;
    LowShift(c);
    PendingBits(reg, rest);
  }

  /** On the low 16 bits, a round feeds the top pending message bit into the reference register. */
  lemma RoundBits(c: bv32, reg: bv16, rest: bv8)
    requires Low(c) == reg ^ ((rest as bv16) << 8)
    ensures Low(Round(c)) == FeedBit(reg, rest & 0x80 != 0) ^ (((rest << 1) as bv16) << 8)
  {
    if c & 0x8000 == 0x8000 {
      RoundSet(c, reg, rest);
    } else {
      RoundClear(c, reg, rest);
    }
  }

  /** A round grows the register by at most one bit, so 32 bits never overflow in eight rounds. */
  lemma RoundGrows(c: bv32, i: bv8)
    requires i < 8 && c < (0x10000 as bv32) << (i as bv32)
    ensures c < 0x80000000 && Round(c) < (0x10000 as bv32) << ((i + 1) as bv32)
  {
  }

  lemma FeedBitsStep(reg: bv16, rest: bv8, n: nat)
    requires n > 0
    ensures FeedBits(reg, rest, n) == FeedBits(FeedBit(reg, rest & 0x80 != 0), rest << 1, n - 1)
  {
  }

  lemma PendingShift(m: bv8, rest: bv8, i: bv8)
    requires i < 8 && rest == m << i
    ensures rest << 1 == m << (i + 1)
  {
  }

  /**
   * How calc_byte's register c relates to the reference register reg after i rounds:
   * rest holds the message bits still to be fed, at its top; the low 16 bits of c
   * are reg with those bits added in at bits 8-15; and c has at most 16 + i bits.
   */
  ghost predicate Tracking(crc: bv16, b: bv8, c: bv32, reg: bv16, rest: bv8, i: bv8)
  {
    i <= 8 && rest == b << i &&
    c < (0x10000 as bv32) << (i as bv32) &&
    FeedBits(reg, rest, 8 - i as int) == FeedByte(crc, b) &&
    Low(c) == reg ^ ((rest as bv16) << 8)
  }

  lemma TrackingStep(crc: bv16, b: bv8, c: bv32, reg: bv16, rest: bv8, i: bv8)
    requires Tracking(crc, b, c, reg, rest, i) && i < 8
    ensures Tracking(crc, b, Round(c), FeedBit(reg, rest & 0x80 != 0), rest << 1, i + 1)
  {
    RoundBits(c, reg, rest);
    RoundGrows(c, i);
    PendingShift(b, rest, i);
    FeedBitsStep(reg, rest, 8 - i as int);
  }

  /**
   * calc_byte(crc, b) (serial.py:34-43): b is XORed into bits 8-15 of the register,
   * then eight rounds shift it up, adding the polynomial whenever bit 15 was set.
   * The Python register is an unbounded integer that grows by one bit per round;
   * it is held here in 32 bits, and Tracking's bound c < 2^(16+i) shows that no
   * bit is ever lost (RoundGrows), so every value is the Python one. The result
   * keeps the low 16 bits: the bit-serial register fed with the bits of b, most
   * significant first.
   */
  method CalcByte(crc: bv16, b: bv8) returns (r: bv16)
    ensures r == FeedByte(crc, b)
  {
    var c: bv32 := (crc as bv32) ^ ((b as bv32) << 8);
    ghost var reg, rest := crc, b;
    var i: bv8 := 0;
    while i < 8
      invariant Tracking(crc, b, c, reg, rest, i)
    {
      TrackingStep(crc, b, c, reg, rest, i);
      reg, rest := FeedBit(reg, rest & 0x80 != 0), rest << 1;
      c := Round(c);
      i := i + 1;
    }
    r := Low(c);
  }

  /** The register after packet[index], ..., packet[i-1]; 0 when that range is empty or out of bounds. */
  function CrcRange(packet: seq<byte>, index: nat, i: nat): bv16
  {
    if index <= i <= |packet| then Crc(packet[index..i]) else 0
  }

  lemma CrcExtend(packet: seq<byte>, index: nat, i: nat)
    requires index <= i < |packet|
    ensures CrcRange(packet, index, i + 1) == FeedByte(CrcRange(packet, index, i), packet[i] as bv8)
  {
    assert packet[index..i + 1] == packet[index..i] + [packet[i]];
    CrcSnoc(packet[index..i], packet[i]);
  }

  /** The loop invariant of calcn: i - index bytes fed, n still to go. */
  ghost predicate CalcNInv(packet: seq<byte>, index: nat, count: int, i: nat, n: int, crc: bv16)
  {
    index <= i && i - index == count - n && (count > 0 ==> n >= 0) && (count <= 0 ==> n == count) &&
    (i > index ==> i <= |packet|) && crc == CrcRange(packet, index, i)
  }

  lemma CalcNStep(packet: seq<byte>, index: nat, count: int, i: nat, n: int, crc: bv16)
    requires CalcNInv(packet, index, count, i, n, crc) && n > 0 && i < |packet|
    ensures CalcNInv(packet, index, count, i + 1, n - 1, FeedByte(crc, packet[i] as bv8))
  {
    CrcExtend(packet, index, i);
  }

  lemma CalcNDone(packet: seq<byte>, index: nat, count: int, i: nat, n: int, crc: bv16)
    requires CalcNInv(packet, index, count, i, n, crc) && n <= 0
    ensures count <= 0 ==> crc == 0
    ensures count > 0 ==> index + count <= |packet| && crc == Crc(packet[index..index + count])
  {
    if count > 0 {
      assert packet[index..i] == packet[index..index + count];
    }
  }

  /**
   * calcn(packet, index, count) (serial.py:45-52): the CRC of the count bytes from
   * index on. A run past the end raises IndexError in the source (None here);
   * a count <= 0 gives 0.
   */
  method CalcN(packet: seq<byte>, index: nat, count: int) returns (r: Option<bv16>)
    ensures count <= 0 ==> r == Some(0)
    ensures count > 0 ==> r == (if index + count <= |packet| then Some(Crc(packet[index..index + count])) else None)
  {
    var crc: bv16 := 0;
    var i: nat := index;
    var n := count;
    while n > 0 && i < |packet|
      invariant CalcNInv(packet, index, count, i, n, crc)
      decreases n
    {
      CalcNStep(packet, index, count, i, n, crc);
      crc := CalcByte(crc, packet[i] as bv8);
      i, n := i + 1, n - 1;
    }
    if n > 0 {
      // packet[i] is out of range: IndexError
      return None;
    }
    CalcNDone(packet, index, count, i, n, crc);
    return Some(crc);
  }

  /** calc(packet, count) (serial.py:54-55): calcn from index 0. */
  method Calc(packet: seq<byte>, count: int) returns (r: Option<bv16>)
    ensures count <= 0 ==> r == Some(0)
    ensures 0 < count <= |packet| ==> r == Some(Crc(packet[..count]))
    ensures count > |packet| ==> r == None
  {
    r := CalcN(packet, 0, count);
  }

  // ---------------------------------------------------------------------
  // The CRC as two octets, low byte first.

  /** crc & 0xff */
  function LowByte(crc: bv16): byte
  {
    (crc & 0xFF) as int
  }

  /** (crc >> 8) & 0xff */
  function HighByte(crc: bv16): byte
  {
    (crc >> 8) as int
  }

  /** The two bytes, low byte first, are the CRC's value in base 256. */
  lemma JoinBytes(crc: bv16)
    ensures LowByte(crc) + 256 * HighByte(crc) == crc as int
  {
  }

  /** Only one pair of bytes spells a given CRC. */
  lemma SplitJoin(crc: bv16, lo: byte, hi: byte)
    requires lo + 256 * hi == crc as int
    ensures LowByte(crc) == lo && HighByte(crc) == hi
  {
    JoinBytes(crc);
  }

  /**
   * set(packet) (serial.py:57-62): stores the CRC of all bytes but the last two in
   * the last two, low byte first. A one-byte packet is overwritten with 0
   * (both writes land on index 0 through Python's negative indexing); an empty
   * one raises IndexError (false here).
   */
  method SetCrc(packet: array<byte>) returns (ok: bool)
    modifies packet
    ensures ok == (packet.Length > 0)
    ensures packet.Length >= 2 ==>
      packet[..] == old(packet[..packet.Length - 2]) + [LowByte(Crc(old(packet[..packet.Length - 2]))), HighByte(Crc(old(packet[..packet.Length - 2])))]
    ensures packet.Length == 1 ==> packet[..] == [0]
    ensures packet.Length == 0 ==> packet[..] == old(packet[..])
  {
    var l := packet.Length;
    if l == 0 {
      return false;
    }
    var crc := Calc(packet[..], l - 2);
    if l == 1 {
      packet[0] := 0;
      packet[0] := 0;
      return true;
    }
    var c := crc.value;
    if l == 2 { assert packet[..0] == []; } else { assert packet[..][..l - 2] == packet[..l - 2]; }
    packet[l - 2] := LowByte(c);
    packet[l - 1] := HighByte(c);
    assert packet[..] == packet[..l - 2] + [packet[l - 2], packet[l - 1]];
    return true;
  }
}
