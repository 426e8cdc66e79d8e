/**
 * readPkt of lib/auxiliary/serial.py: the byte-at-a-time deframer. The bytes the
 * device delivers are an input sequence; running out of them stands for the
 * EOFError that read() raises at end of file.
 *
 * Step is one iteration of readPkt's loop on the decoder state, Run the whole
 * loop; ReadPkt is the loop itself, proved to compute Run. The lemmas say what
 * Run does with well-formed frames, noise, bad escapes and short or corrupt frames.
 */
module SerialReader {
  import opened Common
  import opened Bits
  import opened SerialCrc
  import opened SerialFrame

  /** The local variables of readPkt (serial.py:432-436). */
  datatype Reader = Reader(bytes: seq<byte>, insync: bool, escaped: bool,
                           pkttype: byte, ammsgtype: byte, length: byte, crc: bv16, count: nat)

  function Initial(): Reader { Reader([], false, false, 0, 0, 0, 0, 0) }

  /** The tuple readPkt returns: pkttype, ammsgtype, bytes, length, crc. */
  datatype Packet = Packet(pkttype: byte, ammsgtype: byte, bytes: seq<byte>, length: byte, crc: bv16)

  datatype StepResult = Continue(next: Reader) | Emit(packet: Packet)

  /**
   * The received CRC bytes (lo, hi) of a frame closing with bytes (serial.py:456-472):
   * the last two bytes when frames < 2; otherwise bytes holds the raw stuffed
   * octets and the closing flag, and the two are unescaped from the four before it.
   */
  function CrcBytes(frames: int, bytes: seq<byte>): (byte, byte)
    requires |bytes| >= 5
  {
    if frames < 2 then (bytes[|bytes| - 2], bytes[|bytes| - 1])
    else
      var cb := bytes[|bytes| - 5..|bytes| - 1];
      if cb[2] == ESCAPE_BYTE then
        (if cb[0] == ESCAPE_BYTE then Flip(cb[1]) else cb[1], Flip(cb[3]))
      else
        (if cb[1] == ESCAPE_BYTE then Flip(cb[2]) else cb[2], cb[3])
  }

  /** The state after a frame is dropped (serial.py:451-454, 476-480): out of sync, count and crc 0. */
  function Dropped(st: Reader, bytes: seq<byte>): Reader
  {
    st.(bytes := bytes, insync := false, escaped := false, crc := 0, count := 0)
  }

  /** A flag octet (serial.py:439-484). */
  function OnSync(frames: int, st: Reader): StepResult
  {
    var bytes := if frames > 1 then st.bytes + [SYNC_BYTE] else st.bytes;
    if !st.insync then
      Continue(st.(bytes := if st.count > 0 then [] else bytes, insync := true, crc := 0, count := 0))
    else if (|bytes| < 2 && frames < 2) || |bytes| < 5 then
      Continue(Dropped(st, bytes))
    else
      var (lo, hi) := CrcBytes(frames, bytes);
      if st.crc as int != Or(lo, Shl(hi, 8)) then
        Continue(Dropped(st, if st.count > 0 then [] else bytes))
      else
        Emit(Packet(st.pkttype, st.ammsgtype, bytes, st.length, st.crc))
  }

  /** Any other octet (serial.py:485-507). */
  function OnData(frames: int, st: Reader, b: byte): Reader
  {
    if !st.insync then st
    else if b == ESCAPE_BYTE && !st.escaped then
      st.(bytes := if frames > 1 then st.bytes + [ESCAPE_BYTE] else st.bytes, escaped := true)
    else if st.escaped && (b == ESCAPE_BYTE || b == SYNC_BYTE) then
      st.(escaped := false, insync := false)
    else
      Accept(st, if st.escaped then Flip(b) else b, if st.escaped && frames < 2 then Flip(b) else b)
  }

  /**
   * An octet taken into the packet (serial.py:496-507): value is the unescaped
   * octet, stored what goes into bytes; header fields are picked out by position.
   */
  function Accept(st: Reader, value: byte, stored: byte): Reader
  {
    var pkttype := if st.count == PKT_TYPE_INDEX then value else st.pkttype;
    var length := if st.count == MSG_LENGTH_INDEX then value else st.length;
    var ammsgtype := if st.count == AM_MSGTYPE_INDEX then value else st.ammsgtype;
    var crc := if st.count < HEADER_LENGTH + length - 3 then FeedByte(st.crc, value as bv8) else st.crc;
    Reader(st.bytes + [stored], true, false, pkttype, ammsgtype, length, crc, st.count + 1)
  }

  /** One iteration of readPkt's loop. */
  function Step(frames: int, st: Reader, b: byte): StepResult
  {
    if b == SYNC_BYTE then OnSync(frames, st) else Continue(OnData(frames, st, b))
  }

  /** The outcome of readPkt: a packet and the number of octets it read, or end of input. */
  datatype ReadResult = Read(packet: Packet, consumed: nat) | EndOfInput

  function Shifted(r: ReadResult, n: nat): ReadResult
  {
    match r
    case Read(p, c) => Read(p, c + n)
    case EndOfInput => EndOfInput
  }

  /** readPkt's loop from state st over the remaining input. */
  function Run(frames: int, st: Reader, input: seq<byte>): ReadResult
    decreases |input|
  {
    if |input| == 0 then EndOfInput
    else match Step(frames, st, input[0])
      case Emit(p) => Read(p, 1)
      case Continue(next) => Shifted(Run(frames, next, input[1..]), 1)
  }

  /** The state after feeding all of input, or the packet emitted on the way. */
  function Feed(frames: int, st: Reader, input: seq<byte>): StepResult
    decreases |input|
  {
    if |input| == 0 then Continue(st)
    else match Step(frames, st, input[0])
      case Emit(p) => Emit(p)
      case Continue(next) => Feed(frames, next, input[1..])
  }

  lemma {:induction false} FeedConcat(frames: int, st: Reader, a: seq<byte>, b: seq<byte>)
    ensures Feed(frames, st, a + b) ==
      match Feed(frames, st, a) case Emit(p) => Emit(p) case Continue(s) => Feed(frames, s, b)
    decreases |a|
  {
    if |a| > 0 {
      assert (a + b)[0] == a[0];
      assert (a + b)[1..] == a[1..] + b;
      match Step(frames, st, a[0]) {
        case Emit(p) =>
        case Continue(next) => FeedConcat(frames, next, a[1..], b);
      }
    } else {
      assert a + b == b;
    }
  }

  lemma {:induction false} RunAfterFeed(frames: int, st: Reader, a: seq<byte>, rest: seq<byte>)
    requires Feed(frames, st, a).Continue?
    ensures Run(frames, st, a + rest) == Shifted(Run(frames, Feed(frames, st, a).next, rest), |a|)
    decreases |a|
  {
    if |a| == 0 {
      assert a + rest == rest;
      match Run(frames, st, rest) {
        case Read(p, c) =>
        case EndOfInput =>
      }
    } else {
      assert (a + rest)[0] == a[0];
      assert (a + rest)[1..] == a[1..] + rest;
      var next := Step(frames, st, a[0]).next;
      RunAfterFeed(frames, next, a[1..], rest);
      match Run(frames, Feed(frames, st, a).next, rest) {
        case Read(p, c) =>
        case EndOfInput =>
      }
    }
  }

  // ---------------------------------------------------------------------
  // Well-formed frames are read back.

  /**
   * A body readPkt accepts: at least the header and the CRC, the length octet
   * equal to the message length writeMsg puts there, and the CRC of everything
   * before the last two octets stored in them, low byte first.
   */
  predicate WellFormed(body: seq<byte>)
  {
    Framed(body) &&
    body[|body| - 2] == LowByte(Crc(body[..|body| - 2])) &&
    body[|body| - 1] == HighByte(Crc(body[..|body| - 2]))
  }

  /** Long enough for header and CRC, with the length octet matching the message it frames. */
  predicate Framed(body: seq<byte>)
  {
    |body| >= 13 && body[1] == |body| - 13
  }

  lemma AppendNext<T>(pre: seq<T>, s: seq<T>, j: nat)
    requires j < |s|
    ensures (pre + s[..j]) + [s[j]] == pre + s[..j + 1]
  {
    assert s[..j + 1] == s[..j] + [s[j]];
  }

  /** The decoder state after the opening flag and the first j octets of body. */
  function AfterBody(pre: seq<byte>, st0: Reader, body: seq<byte>, j: nat): Reader
    requires j <= |body| && |body| >= 13
  {
    Reader(pre + body[..j], true, false,
      if j > 0 then body[0] else st0.pkttype,
      if j > 9 then body[9] else st0.ammsgtype,
      if j > 1 then body[1] else st0.length,
      Crc(body[..if j < |body| - 2 then j else |body| - 2]),
      j)
  }

  lemma CrcStep(body: seq<byte>, j: nat)
    requires j < |body| - 2
    ensures Crc(body[..j + 1]) == FeedByte(Crc(body[..j]), body[j] as bv8)
  {
    assert body[..j + 1] == body[..j] + [body[j]];
    CrcSnoc(body[..j], body[j]);
  }

  /** One octet of a well-formed body taken in, whatever the escape flag was. */
  lemma AcceptOctet(pre: seq<byte>, st0: Reader, body: seq<byte>, j: nat, e: bool)
    requires Framed(body) && j < |body|
    ensures Accept(AfterBody(pre, st0, body, j).(escaped := e), body[j], body[j]) == AfterBody(pre, st0, body, j + 1)
  {
    var st := AfterBody(pre, st0, body, j).(escaped := e);
    var next := AfterBody(pre, st0, body, j + 1);
    var r := Accept(st, body[j], body[j]);
    AppendNext(pre, body, j);
    assert r.bytes == next.bytes;
    assert r.length == next.length;
    if j < |body| - 2 {
      CrcStep(body, j);
    }
    assert r.crc == next.crc;
  }

  /** An escaped octet: ESC, then the octet with bit 5 flipped. */
  lemma EscapedOctet(frames: int, st: Reader, b: byte, target: Reader)
    requires frames < 2 && st.insync && !st.escaped && Special(b)
    requires Accept(st.(escaped := true), b, b) == target
    ensures Feed(frames, st, StuffByte(b)) == Continue(target)
  {
    FlipSpecial();
    FlipTwice(b);
    var mid := st.(escaped := true);
    assert Step(frames, st, ESCAPE_BYTE) == Continue(mid);
    assert Feed(frames, st, StuffByte(b)) == Feed(frames, mid, [Flip(b)]);
  }

  /** An octet sent as it is. */
  lemma PlainOctet(frames: int, st: Reader, b: byte, target: Reader)
    requires st.insync && !st.escaped && !Special(b)
    requires Accept(st, b, b) == target
    ensures Feed(frames, st, StuffByte(b)) == Continue(target)
  {
    assert Feed(frames, st, StuffByte(b)) == Feed(frames, OnData(frames, st, b), []);
  }

  /** One octet of a well-formed body, as writePkt stuffs it. */
  lemma BodyOctet(frames: int, pre: seq<byte>, st0: Reader, body: seq<byte>, j: nat)
    requires frames < 2 && Framed(body) && j < |body|
    ensures Feed(frames, AfterBody(pre, st0, body, j), StuffByte(body[j])) == Continue(AfterBody(pre, st0, body, j + 1))
  {
    var st := AfterBody(pre, st0, body, j);
    if Special(body[j]) {
      AcceptOctet(pre, st0, body, j, true);
      EscapedOctet(frames, st, body[j], AfterBody(pre, st0, body, j + 1));
    } else {
      AcceptOctet(pre, st0, body, j, false);
      PlainOctet(frames, st, body[j], AfterBody(pre, st0, body, j + 1));
    }
  }

  lemma {:induction false} BodyOctets(frames: int, pre: seq<byte>, st0: Reader, body: seq<byte>, j: nat)
    requires frames < 2 && Framed(body) && j <= |body|
    ensures Feed(frames, AfterBody(pre, st0, body, 0), Stuff(body[..j])) == Continue(AfterBody(pre, st0, body, j))
    decreases j
  {
    if j > 0 {
      BodyOctets(frames, pre, st0, body, j - 1);
      StuffPrefix(body, j - 1);
      FeedConcat(frames, AfterBody(pre, st0, body, 0), Stuff(body[..j - 1]), StuffByte(body[j - 1]));
      BodyOctet(frames, pre, st0, body, j - 1);
    } else {
      assert body[..0] == [];
    }
  }

  /** What readPkt returns for a well-formed body received after the prefix pre. */
  function Received(pre: seq<byte>, body: seq<byte>): Packet
    requires |body| >= 13
  {
    Packet(body[0], body[9], pre + body, body[1], Crc(body[..|body| - 2]))
  }

  /** A closing flag emits the packet when the CRC matches the last two octets. */
  lemma CloseAccepts(frames: int, st: Reader)
    requires frames < 2 && st.insync && |st.bytes| >= 5
    requires st.crc as int == Or(st.bytes[|st.bytes| - 2], Shl(st.bytes[|st.bytes| - 1], 8))
    ensures OnSync(frames, st) == Emit(Packet(st.pkttype, st.ammsgtype, st.bytes, st.length, st.crc))
  {
  }

  /** The CRC a well-formed body carries, read back from its last two octets. */
  lemma TrailerJoins(body: seq<byte>)
    requires WellFormed(body)
    ensures Crc(body[..|body| - 2]) as int == Or(body[|body| - 2], Shl(body[|body| - 1], 8))
  {
    JoinBytes(Crc(body[..|body| - 2]));
    JoinIsSum(body[|body| - 2], body[|body| - 1]);
  }

  /** After the whole of a well-formed body the CRC register matches its last two octets. */
  lemma CrcMatchesTrailer(pre: seq<byte>, st0: Reader, body: seq<byte>)
    requires WellFormed(body)
    ensures var st := AfterBody(pre, st0, body, |body|);
      st.bytes == pre + body &&
      st.crc as int == Or(st.bytes[|st.bytes| - 2], Shl(st.bytes[|st.bytes| - 1], 8))
  {
    var st := AfterBody(pre, st0, body, |body|);
    assert st.bytes == pre + body by {
      assert body[..|body|] == body;
    }
    assert st.crc == Crc(body[..|body| - 2]);
    TrailerJoins(body);
    assert st.bytes[|st.bytes| - 2] == body[|body| - 2];
    assert st.bytes[|st.bytes| - 1] == body[|body| - 1];
  }

  lemma ClosingFlag(frames: int, pre: seq<byte>, st0: Reader, body: seq<byte>)
    requires frames < 2 && WellFormed(body)
    ensures Step(frames, AfterBody(pre, st0, body, |body|), SYNC_BYTE) == Emit(Received(pre, body))
  {
    CrcMatchesTrailer(pre, st0, body);
    CloseAccepts(frames, AfterBody(pre, st0, body, |body|));
  }

  /** The opening flag and the stuffed body bring an out-of-sync state to AfterBody(|body|). */
  lemma FeedsFrameBody(frames: int, st: Reader, body: seq<byte>)
    requires frames < 2 && !st.insync && !st.escaped && Framed(body)
    ensures Feed(frames, st, [SYNC_BYTE] + Stuff(body)) ==
      Continue(AfterBody(if st.count > 0 then [] else st.bytes, st, body, |body|))
  {
    var pre := if st.count > 0 then [] else st.bytes;
    assert Step(frames, st, SYNC_BYTE) == Continue(AfterBody(pre, st, body, 0)) by {
      assert body[..0] == [];
    }
    BodyOctets(frames, pre, st, body, |body|);
    assert body[..|body|] == body;
    FeedConcat(frames, st, [SYNC_BYTE], Stuff(body));
  }

  /**
   * Round trip: from any out-of-sync state, a frame holding a well-formed body is
   * read back whole, with pkttype, length and ammsgtype taken from octets 0, 1 and
   * 9 and the CRC it carries. The octets before it (pre) are those the state still
   * holds when its count is 0: a dropped short frame leaves them behind.
   */
  lemma ReadsFrameBack(frames: int, st: Reader, body: seq<byte>, rest: seq<byte>)
    requires frames < 2 && !st.insync && !st.escaped && WellFormed(body)
    ensures Run(frames, st, Frame(body) + rest) ==
      Read(Received(if st.count > 0 then [] else st.bytes, body), |Frame(body)|)
  {
    var pre := if st.count > 0 then [] else st.bytes;
    var head := [SYNC_BYTE] + Stuff(body);
    FeedsFrameBody(frames, st, body);
    assert Frame(body) + rest == head + ([SYNC_BYTE] + rest);
    RunAfterFeed(frames, st, head, [SYNC_BYTE] + rest);
    ClosingFlag(frames, pre, st, body);
    assert Run(frames, AfterBody(pre, st, body, |body|), [SYNC_BYTE] + rest) == Read(Received(pre, body), 1);
  }

  /** writePkt's bodies, with the length writeMsg gives them, are well formed. */
  lemma WrittenBodyWellFormed(msg: seq<byte>, seqno: int)
    requires 2 <= |msg| <= 257
    ensures WellFormed(Body(msg, |msg| - 2, seqno))
  {
    var body := Body(msg, |msg| - 2, seqno);
    assert body[..|body| - 2] == Header(|msg| - 2, seqno) + msg;
  }

  /**
   * A frame writePkt(msg, len(msg) - 2) produces, as writeMsg calls it, fed to
   * readPkt(0) from its initial state, comes back as the unstuffed body with the
   * CRC bytes, pkttype 0x42, the length and msg[0] as the message type.
   */
  lemma WriteThenRead(msg: seq<byte>, seqno: int, rest: seq<byte>)
    requires 2 <= |msg| <= 257
    ensures var body := Body(msg, |msg| - 2, seqno);
      Run(0, Initial(), Frame(body) + rest) ==
        Read(Packet(P_PACKET_NO_ACK, msg[0], body, |msg| - 2, Crc(body[..|body| - 2])), |Frame(body)|)
  {
    WrittenBodyWellFormed(msg, seqno);
    var body := Body(msg, |msg| - 2, seqno);
    ReadsFrameBack(0, Initial(), body, rest);
    assert [] + body == body;
  }

  // ---------------------------------------------------------------------
  // How the decoder treats noise, bad escapes and bad frames.

  /** Octets other than the flag, received out of sync, are ignored and never stored. */
  lemma {:induction false} NoiseIgnored(frames: int, st: Reader, noise: seq<byte>)
    requires !st.insync
    requires forall i :: 0 <= i < |noise| ==> noise[i] != SYNC_BYTE
    ensures Feed(frames, st, noise) == Continue(st)
    decreases |noise|
  {
    if |noise| > 0 {
      assert Step(frames, st, noise[0]) == Continue(st);
      NoiseIgnored(frames, st, noise[1..]);
    }
  }

  /** A packet is only ever returned on a flag octet. */
  lemma EmitOnlyAtFlag(frames: int, st: Reader, b: byte)
    ensures Step(frames, st, b).Emit? ==> b == SYNC_BYTE
  {
  }

  lemma {:induction false} PacketEndsAtFlag(frames: int, st: Reader, input: seq<byte>)
    ensures Run(frames, st, input).Read? ==>
      1 <= Run(frames, st, input).consumed <= |input| &&
      input[Run(frames, st, input).consumed - 1] == SYNC_BYTE
    decreases |input|
  {
    if |input| > 0 {
      EmitOnlyAtFlag(frames, st, input[0]);
      match Step(frames, st, input[0]) {
        case Emit(p) =>
        case Continue(next) =>
          PacketEndsAtFlag(frames, next, input[1..]);
          match Run(frames, next, input[1..]) {
            case Read(p, c) => assert input[1..][c - 1] == input[c];
            case EndOfInput =>
          }
      }
    }
  }

  /** ESC ESC drops sync and clears the escape flag, returning nothing. */
  lemma EscapeEscapeDropsSync(frames: int, st: Reader)
    requires st.insync && !st.escaped
    ensures Feed(frames, st, [ESCAPE_BYTE, ESCAPE_BYTE]) ==
      Continue(st.(bytes := if frames > 1 then st.bytes + [ESCAPE_BYTE] else st.bytes, insync := false))
  {
    var mid := st.(bytes := if frames > 1 then st.bytes + [ESCAPE_BYTE] else st.bytes, escaped := true);
    assert Step(frames, st, ESCAPE_BYTE) == Continue(mid);
    assert Step(frames, mid, ESCAPE_BYTE) == Continue(mid.(escaped := false, insync := false));
    FeedCons(frames, st, ESCAPE_BYTE, [ESCAPE_BYTE]);
    FeedCons(frames, mid, ESCAPE_BYTE, []);
    assert [ESCAPE_BYTE, ESCAPE_BYTE] == [ESCAPE_BYTE] + [ESCAPE_BYTE];
    assert [ESCAPE_BYTE] == [ESCAPE_BYTE] + [];
  }

  /**
   * ESC SYNC: the flag test comes first, so the flag is handled as a flag with the
   * escape flag ignored, and the escaped-SYNC test of serial.py:495 is never reached.
   */
  lemma EscapeFlagIsFlag(frames: int, st: Reader)
    ensures st.insync ==> Step(frames, st.(escaped := true), SYNC_BYTE) == Step(frames, st.(escaped := false), SYNC_BYTE)
    ensures Step(frames, st.(escaped := true), SYNC_BYTE).Emit? <==> Step(frames, st.(escaped := false), SYNC_BYTE).Emit?
  {
  }

  /**
   * A closing flag with fewer than five octets buffered (the test of serial.py:450
   * is never false below five, whatever frames is) returns nothing, leaves the
   * decoder out of sync and keeps the buffered octets.
   */
  lemma ShortFrameDropped(frames: int, st: Reader)
    requires st.insync
    requires |if frames > 1 then st.bytes + [SYNC_BYTE] else st.bytes| < 5
    ensures Step(frames, st, SYNC_BYTE) ==
      Continue(Dropped(st, if frames > 1 then st.bytes + [SYNC_BYTE] else st.bytes))
    ensures !Step(frames, st, SYNC_BYTE).next.insync
  {
  }

  /** A closing flag whose CRC does not match returns nothing and leaves the decoder out of sync. */
  lemma CorruptFrameDropped(frames: int, st: Reader)
    requires st.insync
    requires |if frames > 1 then st.bytes + [SYNC_BYTE] else st.bytes| >= 5
    requires var (lo, hi) := CrcBytes(frames, if frames > 1 then st.bytes + [SYNC_BYTE] else st.bytes);
      st.crc as int != Or(lo, Shl(hi, 8))
    ensures Step(frames, st, SYNC_BYTE).Continue?
    ensures !Step(frames, st, SYNC_BYTE).next.insync && Step(frames, st, SYNC_BYTE).next.count == 0
  {
  }

  /** The escape flag is only ever set while in sync. */
  lemma EscapedOnlyInSync(frames: int, st: Reader, b: byte)
    requires st.escaped ==> st.insync
    ensures Step(frames, st, b).Continue? ==> (Step(frames, st, b).next.escaped ==> Step(frames, st, b).next.insync)
  {
  }

  /**
   * The stale octet: a one-octet frame is dropped with count reset but bytes kept,
   * so the next opening flag does not clear it and it is returned at the head of
   * the next packet.
   */
  lemma StaleOctetLeaks(body: seq<byte>, x: byte, rest: seq<byte>)
    requires WellFormed(body) && x != SYNC_BYTE && x != ESCAPE_BYTE
    ensures Run(0, Initial(), [SYNC_BYTE, x, SYNC_BYTE] + Frame(body) + rest) ==
      Read(Received([x], body), 3 + |Frame(body)|)
  {
    var st := StaleState(x);
    assert [SYNC_BYTE, x, SYNC_BYTE] + Frame(body) + rest == [SYNC_BYTE, x, SYNC_BYTE] + (Frame(body) + rest);
    RunAfterFeed(0, Initial(), [SYNC_BYTE, x, SYNC_BYTE], Frame(body) + rest);
    ReadsFrameBack(0, st, body, rest);
  }

  lemma FeedCons(frames: int, st: Reader, b: byte, rest: seq<byte>)
    requires Step(frames, st, b).Continue?
    ensures Feed(frames, st, [b] + rest) == Feed(frames, Step(frames, st, b).next, rest)
  {
    assert ([b] + rest)[1..] == rest;
  }

  /** The state after SYNC x SYNC from the initial state. */
  lemma StaleState(x: byte) returns (st: Reader)
    requires x != SYNC_BYTE && x != ESCAPE_BYTE
    ensures Feed(0, Initial(), [SYNC_BYTE, x, SYNC_BYTE]) == Continue(st)
    ensures st.bytes == [x] && !st.insync && !st.escaped && st.count == 0
  {
    var s1 := Initial().(insync := true);
    var s2 := Accept(s1, x, x);
    st := Dropped(s2, [x]);
    FeedCons(0, Initial(), SYNC_BYTE, [x, SYNC_BYTE]);
    FeedCons(0, s1, x, [SYNC_BYTE]);
    FeedCons(0, s2, SYNC_BYTE, []);
    assert [SYNC_BYTE, x, SYNC_BYTE] == [SYNC_BYTE] + [x, SYNC_BYTE];
    assert [x, SYNC_BYTE] == [x] + [SYNC_BYTE];
    assert [SYNC_BYTE] == [SYNC_BYTE] + [];
  }

  // ---------------------------------------------------------------------
  // readPkt itself.

  lemma RunContinues(frames: int, st: Reader, input: seq<byte>, i: nat)
    requires i < |input| && Step(frames, st, input[i]).Continue?
    ensures Shifted(Run(frames, st, input[i..]), i) ==
      Shifted(Run(frames, Step(frames, st, input[i]).next, input[i + 1..]), i + 1)
  {
    assert input[i..][1..] == input[i + 1..];
    match Run(frames, Step(frames, st, input[i]).next, input[i + 1..]) {
      case Read(p, c) =>
      case EndOfInput =>
    }
  }

  lemma RunEmits(frames: int, st: Reader, input: seq<byte>, i: nat)
    requires i < |input| && Step(frames, st, input[i]).Emit?
    ensures Shifted(Run(frames, st, input[i..]), i) == Read(Step(frames, st, input[i]).packet, i + 1)
  {
  }

  /** The flag branch of readPkt's loop (serial.py:439-484) on its local variables. */
  method FlagOctet(frames: int, st: Reader) returns (r: StepResult)
    ensures r == OnSync(frames, st)
  {
    var bytes, insync, escaped, crc, count := st.bytes, st.insync, st.escaped, st.crc, st.count;
    if frames > 1 {
      bytes := bytes + [SYNC_BYTE];
    }
    if !insync {
      if count > 0 {
        bytes := [];
      }
      return Continue(st.(bytes := bytes, insync := true, crc := 0, count := 0));
    }
    if (|bytes| < 2 && frames < 2) || |bytes| < 5 {
      return Continue(st.(bytes := bytes, insync := false, escaped := false, crc := 0, count := 0));
    }
    var lo: byte, hi: byte;
    if frames < 2 {
      lo, hi := bytes[|bytes| - 2], bytes[|bytes| - 1];
    } else {
      var cb := bytes[|bytes| - 5..|bytes| - 1];
      if cb[2] == ESCAPE_BYTE {
        hi := Flip(cb[3]);
        lo := if cb[0] == ESCAPE_BYTE then Flip(cb[1]) else cb[1];
      } else {
        hi := cb[3];
        lo := if cb[1] == ESCAPE_BYTE then Flip(cb[2]) else cb[2];
      }
    }
    if crc as int != Or(lo, Shl(hi, 8)) {
      if count > 0 {
        bytes := [];
      }
      return Continue(st.(bytes := bytes, insync := false, escaped := false, crc := 0, count := 0));
    }
    return Emit(Packet(st.pkttype, st.ammsgtype, bytes, st.length, crc));
  }

  /** The branch of readPkt's loop for any other octet (serial.py:485-507). */
  method DataOctet(frames: int, st: Reader, b: byte) returns (next: Reader)
    ensures next == OnData(frames, st, b)
  {
    if !st.insync {
      return st;
    }
    if b == ESCAPE_BYTE && !st.escaped {
      var bytes := st.bytes;
      if frames > 1 {
        bytes := bytes + [ESCAPE_BYTE];
      }
      return st.(bytes := bytes, escaped := true);
    }
    var escapedbyte := b;
    var stored := b;
    if st.escaped {
      if b == ESCAPE_BYTE || b == SYNC_BYTE {
        return st.(escaped := false, insync := false);
      }
      escapedbyte := Flip(b);
      if frames < 2 {
        stored := escapedbyte;
      }
    }
    next := TakeOctet(st, escapedbyte, stored);
  }

  /** The tail of readPkt's loop body that takes an octet into the packet (serial.py:496-507). */
  method TakeOctet(st: Reader, value: byte, stored: byte) returns (next: Reader)
    ensures next == Accept(st, value, stored)
  {
    var pkttype, ammsgtype, length, crc := st.pkttype, st.ammsgtype, st.length, st.crc;
    if st.count == PKT_TYPE_INDEX { pkttype := value; }
    if st.count == MSG_LENGTH_INDEX { length := value; }
    if st.count == AM_MSGTYPE_INDEX { ammsgtype := value; }
    if st.count < HEADER_LENGTH + length - 3 {
      crc := CalcByte(crc, value as bv8);
    }
    next := Reader(st.bytes + [stored], true, false, pkttype, ammsgtype, length, crc, st.count + 1);
  }

  /**
   * readPkt(frames) on a device that delivers input: the loop of serial.py:437-507,
   * with its local variables held in st and one octet read per iteration.
   */
  method ReadPkt(frames: int, input: seq<byte>) returns (r: ReadResult)
    ensures r == Run(frames, Initial(), input)
  {
    var st := Initial();
    var i := 0;
    while i < |input|
      invariant i <= |input|
      invariant Run(frames, Initial(), input) == Shifted(Run(frames, st, input[i..]), i)
    {
      var b := input[i];
      if b == SYNC_BYTE {
        var res := FlagOctet(frames, st);
        if res.Emit? {
          RunEmits(frames, st, input, i);
          return Read(res.packet, i + 1);
        }
        RunContinues(frames, st, input, i);
        st := res.next;
      } else {
        RunContinues(frames, st, input, i);
        st := DataOctet(frames, st, b);
      }
      i := i + 1;
    }
    r := EndOfInput;
  }
}
