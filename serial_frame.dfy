/**
 * The writing side of lib/auxiliary/serial.py: the nine-byte TinyOS header,
 * the CRC trailer, the byte stuffing of RFC 1662 section 4.2 (flag 0x7E,
 * escape 0x7D, escaped octet XOR 0x20) and the message-type dispatch of
 * writeMsg, plus the bits() debugging helper and __extractMsg.
 */
module SerialFrame {
  import opened Common
  import opened Bits
  import opened SerialCrc

  const HEADER_LENGTH := 14
  const PKT_TYPE_INDEX := 0
  const MSG_LENGTH_INDEX := 1
  const AM_MSGTYPE_INDEX := 9
  const SYNC_BYTE: byte := 0x7E
  const ESCAPE_BYTE: byte := 0x7D
  const P_PACKET_NO_ACK: byte := 0x42

  /** byte ^ 0x20, the transformation of an escaped octet. */
  function Flip(b: byte): byte
  {
    Pow2Values();
    XorBelow(b, 0x20, 8);
    Xor(b, 0x20)
  }

  lemma XorTwice(b: nat)
    ensures Xor(Xor(b, 0x20), 0x20) == b
  {
    forall k: nat ensures Bit(Xor(Xor(b, 0x20), 0x20), k) == Bit(b, k) {
      BitXor(Xor(b, 0x20), 0x20, k);
      BitXor(b, 0x20, k);
    }
    BitsDetermine(Xor(Xor(b, 0x20), 0x20), b);
  }

  lemma FlipTwice(b: byte)
    ensures Flip(Flip(b)) == b
  {
    XorTwice(b);
  }

  lemma FlipSync()
    ensures Flip(SYNC_BYTE) == 0x5E
  {
    assert Xor(0x7E, 0x20) == 0x5E;
  }

  lemma FlipEscape()
    ensures Flip(ESCAPE_BYTE) == 0x5D
  {
    assert Xor(0x7D, 0x20) == 0x5D;
  }

  /** The escaped forms of the flag and the escape octet are neither of the two. */
  lemma FlipSpecial()
    ensures Flip(SYNC_BYTE) == 0x5E && Flip(ESCAPE_BYTE) == 0x5D
  {
    FlipSync();
    FlipEscape();
  }

  predicate Special(b: byte) { b == SYNC_BYTE || b == ESCAPE_BYTE }

  /** The stuffed form of one octet. */
  function StuffByte(b: byte): seq<byte>
  {
    if Special(b) then [ESCAPE_BYTE, Flip(b)] else [b]
  }

  /** The stuffed form of a whole body. */
  function Stuff(body: seq<byte>): seq<byte>
    decreases |body|
  {
    if |body| == 0 then [] else Stuff(body[..|body| - 1]) + StuffByte(body[|body| - 1])
  }

  /** A complete frame: opening flag, stuffed body, closing flag. */
  function Frame(body: seq<byte>): seq<byte>
  {
    [SYNC_BYTE] + Stuff(body) + [SYNC_BYTE]
  }

  lemma {:induction false} StuffHasNoFlag(body: seq<byte>)
    ensures SYNC_BYTE !in Stuff(body)
    decreases |body|
  {
    if |body| > 0 {
      StuffHasNoFlag(body[..|body| - 1]);
      FlipSpecial();
    }
  }

  /** Every escape in a stuffed body is followed by the flipped flag or escape octet. */
  lemma {:induction false} StuffEscapes(body: seq<byte>, i: nat)
    requires i < |Stuff(body)| && Stuff(body)[i] == ESCAPE_BYTE
    ensures i + 1 < |Stuff(body)| && Stuff(body)[i + 1] in {0x5D, 0x5E}
    decreases |body|
  {
    var init := Stuff(body[..|body| - 1]);
    var last := body[|body| - 1];
    FlipSpecial();
    if i < |init| {
      StuffEscapes(body[..|body| - 1], i);
    }
  }

  /** A frame begins and ends with the flag, and the flag occurs nowhere else in it. */
  lemma FrameDelimited(body: seq<byte>)
    ensures var f := Frame(body);
      |f| >= 2 && f[0] == SYNC_BYTE && f[|f| - 1] == SYNC_BYTE &&
      forall i :: 0 < i < |f| - 1 ==> f[i] != SYNC_BYTE
  {
    var f := Frame(body);
    StuffHasNoFlag(body);
    forall i | 0 < i < |f| - 1 ensures f[i] != SYNC_BYTE {
      assert f[i] == Stuff(body)[i - 1];
    }
  }

  lemma StuffSnoc(body: seq<byte>, b: byte)
    ensures Stuff(body + [b]) == Stuff(body) + StuffByte(b)
  {
    assert (body + [b])[..|body|] == body;
  }

  lemma StuffPrefix(body: seq<byte>, i: nat)
    requires i < |body|
    ensures Stuff(body[..i + 1]) == Stuff(body[..i]) + StuffByte(body[i])
  {
    assert body[..i + 1] == body[..i] + [body[i]];
    StuffSnoc(body[..i], body[i]);
  }

  lemma StuffGrows(body: seq<byte>, i: nat, done: seq<byte>, packet: seq<byte>)
    requires i < |body| && done == [SYNC_BYTE] + Stuff(body[..i])
    requires packet == done + StuffByte(body[i])
    ensures packet == [SYNC_BYTE] + Stuff(body[..i + 1])
  {
    StuffPrefix(body, i);
  }

  /** The TinyOS header written by writePkt (serial.py:352-361). */
  function Header(length: byte, seqno: int): (h: seq<byte>)
    ensures |h| == 9
  {
    [P_PACKET_NO_ACK, length, 0x01, 0x08, seqno % 256, 0xFF, 0xFF, 0xFF, 0xFF]
  }

  /** The unstuffed packet: header, message, and the CRC of both, low byte first. */
  function Body(msg: seq<byte>, length: byte, seqno: int): (b: seq<byte>)
    ensures |b| == |msg| + 11
  {
    var data := Header(length, seqno) + msg;
    data + [LowByte(Crc(data)), HighByte(Crc(data))]
  }

  /** The stuffing loop of writePkt (serial.py:365-377). */
  method StuffFrame(body: seq<byte>) returns (packet: seq<byte>)
    ensures packet == Frame(body)
  {
    packet := [SYNC_BYTE];
    var i := 0;
    while i < |body|
      invariant 0 <= i <= |body|
      invariant packet == [SYNC_BYTE] + Stuff(body[..i])
    {
      ghost var done := packet;
      packet := AppendStuffed(packet, body[i]);
      StuffGrows(body, i, done, packet);
      i := i + 1;
    }
    assert body[..i] == body;
    packet := packet + [SYNC_BYTE];
  }

  /** One pass of writePkt's stuffing loop (serial.py:371-376). */
  method AppendStuffed(packet: seq<byte>, b: byte) returns (next: seq<byte>)
    ensures next == packet + StuffByte(b)
  {
    if b == ESCAPE_BYTE || b == SYNC_BYTE {
      return packet + [ESCAPE_BYTE, Flip(b)];
    }
    return packet + [b];
  }

  /**
   * __extractMsg(packet, msglen) (serial.py:204-211): packet[11:-2], with Python's
   * slice clamping on packets shorter than 13 bytes.
   */
  function ExtractMsg(packet: seq<byte>): (r: seq<byte>)
    ensures |packet| >= 13 ==> r == packet[11..|packet| - 2]
    ensures |packet| < 13 ==> r == []
  {
    if |packet| >= 13 then packet[11..|packet| - 2] else []
  }

  /**
   * A body written for writeMsg holds the message type and group id in bytes 9
   * and 10; extracting the message from it gives back the payload.
   */
  lemma ExtractMsgOfBody(amtype: byte, group: byte, payload: seq<byte>, length: byte, seqno: int)
    ensures ExtractMsg(Body([amtype, group] + payload, length, seqno)) == payload
  {
    var m := [amtype, group] + payload;
    var data := Header(length, seqno) + m;
    var body := Body(m, length, seqno);
    assert body[..|body| - 2] == data;
    assert data[11..] == payload;
  }

  /**
   * bits(n, offset, size) (serial.py:28-32): the bits size-1 down to offset of n
   * as a string of '0' and '1', most significant first; empty when offset >= size.
   * A negative offset raises ValueError (negative shift) in the source.
   */
  method BitString(n: nat, offset: nat, size: int) returns (s: string)
    ensures |s| == (if size > offset then size - offset else 0)
    ensures forall j :: 0 <= j < |s| ==> s[j] == (if Bit(n, size - 1 - j) then '1' else '0')
  {
    s := "";
    var i := offset;
    while i < size
      invariant offset <= i && (i <= size || i == offset)
      invariant |s| == i - offset
      invariant forall j :: 0 <= j < |s| ==> s[j] == (if Bit(n, i - 1 - j) then '1' else '0')
    {
      BitShr(n, i, 0);
      BitAnd(Shr(n, i), 1, 0);
      var bit := if And(Shr(n, i), 1) % 2 == 1 then '1' else '0';
      s := [bit] + s;
      i := i + 1;
    }
  }

  /** A Python value that writeMsg can meet inside a list: an int or a (byte) string. */
  datatype PyValue = PyInt(i: int) | PyStr(chars: seq<byte>)

  /** The kinds of msg argument writeMsg distinguishes (serial.py:402-419). */
  datatype Message =
    | ByteArray(bytes: seq<byte>)        // array.array('B')
    | Str(chars: seq<byte>)              // a Python 2 str
    | List(items: seq<PyValue>)          // a list
    | Other(iterable: Option<seq<PyValue>>)  // any other type; None if it cannot be iterated

  datatype PyError = TypeError | OverflowError

  /** The result of writeMsg: the frame written, a returned code, or an exception. */
  datatype Outcome = Sent(frame: seq<byte>) | Returned(code: int) | Raised(error: PyError)

  /** ord(v) raises TypeError unless v is a one-character string. */
  predicate OrdFails(v: PyValue) { !(v.PyStr? && |v.chars| == 1) }

  /** The debug line of serial.py:395 applies ord to every element of msg. */
  predicate LogRaises(msg: Message)
  {
    match msg
    case ByteArray(bytes) => |bytes| > 0
    case Str(_) => false
    case List(items) => exists i :: 0 <= i < |items| && OrdFails(items[i])
    case Other(it) => it.None? || exists i :: 0 <= i < |it.value| && OrdFails(it.value[i])
  }

  predicate SameType(a: PyValue, b: PyValue) { a.PyInt? == b.PyInt? }

  /** What the type dispatch of serial.py:402-419 appends after the two header bytes. */
  datatype Payload = Bytes(bytes: seq<byte>) | Reject | PayloadRaises(error: PyError)

  function OrdAll(items: seq<PyValue>): (r: Option<seq<byte>>)
    ensures r.Some? ==> |r.value| == |items|
    decreases |items|
  {
    if |items| == 0 then Some([])
    else match OrdAll(items[..|items| - 1])
      case None => None
      case Some(init) =>
        var v := items[|items| - 1];
        if v.PyStr? && |v.chars| == 1 then Some(init + [v.chars[0]]) else None
  }

  function IntsAll(items: seq<PyValue>): (r: Option<seq<byte>>)
    ensures r.Some? ==> |r.value| == |items|
    decreases |items|
  {
    if |items| == 0 then Some([])
    else match IntsAll(items[..|items| - 1])
      case None => None
      case Some(init) =>
        var v := items[|items| - 1];
        if v.PyInt? && 0 <= v.i < 256 then Some(init + [v.i]) else None
  }

  function PayloadOf(msg: Message): Payload
  {
    match msg
    case ByteArray(bytes) => Bytes(bytes)
    case Str(chars) => Bytes(chars)
    case List(items) =>
      if |items| == 0 then Reject
      else if exists i :: 0 <= i < |items| && !SameType(items[0], items[i]) then Reject
      else if items[0].PyStr? then (if OrdAll(items).Some? then Bytes(OrdAll(items).value) else PayloadRaises(TypeError))
      else (if IntsAll(items).Some? then Bytes(IntsAll(items).value) else PayloadRaises(OverflowError))
    case Other(_) => Reject
  }

  function Length(msg: Message): nat
  {
    match msg
    case ByteArray(bytes) => |bytes|
    case Str(chars) => |chars|
    case List(items) => |items|
    case Other(it) => if it.Some? then |it.value| else 0
  }

  /** writeMsg after its debug line: the two header bytes, the type dispatch and writePkt. */
  function Dispatched(msg: Message, ammsgtype: int, groupid: int, seqno: int): Outcome
  {
    if !(0 <= ammsgtype < 256 && 0 <= groupid < 256) then Raised(OverflowError)
    else match PayloadOf(msg)
      case Reject => Returned(-1)
      case PayloadRaises(e) => Raised(e)
      case Bytes(p) =>
        if Length(msg) < 256 then Sent(Frame(Body([ammsgtype, groupid] + p, Length(msg), seqno)))
        else Raised(OverflowError)
  }

  /** The list branch of writeMsg (serial.py:407-416): every element must have msg[0]'s type. */
  method ListPayload(items: seq<PyValue>) returns (p: Payload)
    ensures p == PayloadOf(List(items))
  {
    if |items| == 0 {
      return Reject;
    }
    var i := 0;
    while i < |items|
      invariant 0 <= i <= |items|
      invariant forall j :: 0 <= j < i ==> SameType(items[0], items[j])
    {
      if items[0].PyInt? != items[i].PyInt? {
        return Reject;
      }
      i := i + 1;
    }
    if items[0].PyStr? {
      var b := OrdAll(items);
      p := if b.Some? then Bytes(b.value) else PayloadRaises(TypeError);
    } else {
      var b := IntsAll(items);
      p := if b.Some? then Bytes(b.value) else PayloadRaises(OverflowError);
    }
  }

  /** A non-empty array message makes the debug line raise TypeError: ord() of an int. */
  lemma ArrayMessagesRaise(bytes: seq<byte>)
    requires |bytes| > 0
    ensures LogRaises(ByteArray(bytes))
  {
  }

  /** So does a list of ints, the other branch the dispatch was written for. */
  lemma IntListMessagesRaise(items: seq<PyValue>)
    requires |items| > 0 && forall i :: 0 <= i < |items| ==> items[i].PyInt?
    ensures LogRaises(List(items))
  {
    assert OrdFails(items[0]);
  }

  /** Without the failing debug line, an array message of at most 255 bytes is framed. */
  lemma ArrayMessagesFramed(bytes: seq<byte>, ammsgtype: byte, groupid: byte, seqno: int)
    requires |bytes| < 256
    ensures Dispatched(ByteArray(bytes), ammsgtype, groupid, seqno)
      == Sent(Frame(Body([ammsgtype, groupid] + bytes, |bytes|, seqno)))
  {
  }

  /** ... and so is a list of ints in 0..255. */
  lemma IntListMessagesFramed(items: seq<PyValue>, ammsgtype: byte, groupid: byte, seqno: int)
    requires 0 < |items| < 256 && forall i :: 0 <= i < |items| ==> items[i].PyInt? && 0 <= items[i].i < 256
    ensures IntsAll(items).Some?
    ensures Dispatched(List(items), ammsgtype, groupid, seqno)
      == Sent(Frame(Body([ammsgtype, groupid] + IntsAll(items).value, |items|, seqno)))
  {
    IntsAllOfInts(items);
    IntListPayload(items);
  }

  lemma IntListPayload(items: seq<PyValue>)
    requires 0 < |items| && forall i :: 0 <= i < |items| ==> items[i].PyInt? && 0 <= items[i].i < 256
    requires IntsAll(items).Some?
    ensures PayloadOf(List(items)) == Bytes(IntsAll(items).value)
  {
    assert !exists i :: 0 <= i < |items| && !SameType(items[0], items[i]);
  }

  lemma {:induction false} IntsAllOfInts(items: seq<PyValue>)
    requires forall i :: 0 <= i < |items| ==> items[i].PyInt? && 0 <= items[i].i < 256
    ensures IntsAll(items).Some?
    ensures forall i :: 0 <= i < |items| ==> IntsAll(items).value[i] == items[i].i
    decreases |items|
  {
    if |items| > 0 {
      IntsAllOfInts(items[..|items| - 1]);
    }
  }

  /**
   * The Serial object of serial.py; only the sequence number is state here.
   * The device descriptor, the logger and the message tables are not modelled.
   */
  class Serial {
    var seqno: int

    /** serial.py:90 starts the sequence number at 20. */
    constructor ()
      ensures seqno == 20
    {
      seqno := 20;
    }

    /**
     * writePkt(msg, length) (serial.py:346-388): the frame handed to os.write.
     * A length outside 0..255 makes array('B').append raise OverflowError (None).
     * The return at serial.py:383 comes before the increment at serial.py:385, so
     * the sequence number is never advanced: the method modifies nothing.
     */
    method WritePkt(msg: seq<byte>, length: int) returns (r: Option<seq<byte>>)
      ensures 0 <= length < 256 ==> r == Some(Frame(Body(msg, length, seqno)))
      ensures !(0 <= length < 256) ==> r == None
    {
      if !(0 <= length < 256) {
        return None;
      }
      var bytes := Header(length, seqno) + msg + [0, 0];
      var a := new byte[|bytes|];
      forall i | 0 <= i < |bytes| { a[i] := bytes[i]; }
      assert a[..] == bytes;
      var _ := SetCrc(a);
      var body := a[..];
      assert body == Body(msg, length, seqno) by {
        assert bytes[..|bytes| - 2] == Header(length, seqno) + msg;
      }
      var packet := StuffFrame(body);
      return Some(packet);
    }

    /**
     * writeMsg(msg, ammsgtype, groupid) (serial.py:390-420) as written. fcntlResult
     * stands for the result of the fcntl call. The debug line at serial.py:395 maps
     * ord over msg, which raises TypeError for an array or a list of ints, so those
     * branches of the dispatch are never reached.
     */
    method WriteMsgAsWritten(msg: Message, ammsgtype: int, groupid: int, fcntlResult: int) returns (r: Outcome)
      ensures fcntlResult < 0 ==> r == Returned(1)
      ensures fcntlResult >= 0 && LogRaises(msg) ==> r == Raised(TypeError)
      ensures fcntlResult >= 0 && !LogRaises(msg) ==> r == Dispatched(msg, ammsgtype, groupid, seqno)
    {
      if fcntlResult < 0 {
        return Returned(1);
      }
      if LogRaises(msg) {
        return Raised(TypeError);
      }
      r := Dispatch(msg, ammsgtype, groupid);
    }

    /** writeMsg with a debug line that does not raise: what the dispatch was written for. */
    method WriteMsg(msg: Message, ammsgtype: int, groupid: int, fcntlResult: int) returns (r: Outcome)
      ensures fcntlResult < 0 ==> r == Returned(1)
      ensures fcntlResult >= 0 ==> r == Dispatched(msg, ammsgtype, groupid, seqno)
    {
      if fcntlResult < 0 {
        return Returned(1);
      }
      r := Dispatch(msg, ammsgtype, groupid);
    }

    /** serial.py:397-420. */
    method Dispatch(msg: Message, ammsgtype: int, groupid: int) returns (r: Outcome)
      ensures r == Dispatched(msg, ammsgtype, groupid, seqno)
    {
      if !(0 <= ammsgtype < 256 && 0 <= groupid < 256) {
        return Raised(OverflowError);
      }
      var head: seq<byte> := [ammsgtype, groupid];
      var payload: Payload;
      match msg {
        case ByteArray(bytes) => payload := Bytes(bytes);
        case Str(chars) => payload := Bytes(chars);
        case List(items) => payload := ListPayload(items);
        case Other(_) => payload := Reject;
      }
      match payload {
        case Reject => return Returned(-1);
        case PayloadRaises(e) => return Raised(e);
        case Bytes(p) =>
          var frame := WritePkt(head + p, Length(msg));
          if frame.None? {
            return Raised(OverflowError);
          }
          return Sent(frame.value);
      }
    }
  }
}
