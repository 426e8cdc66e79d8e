# HEN in Dafny

HEN is a manager for a network testbed. It keeps an inventory of the testbed's nodes, switches and power
controllers, and it allocates them to experiments. Its daemons reserve devices and drive switches and power
hardware. A web interface shows racks, status and an experiment calendar. Most of the system is I/O: SNMP and
telnet sessions with switches, sockets, files, e-mail and the browser's DOM.

This project models the part of HEN that computes. It states what each piece promises and proves it. Each source
file of that part has its own Dafny module:

- `SerialCrc`, `SerialFrame` and `SerialReader` model the TinyOS mote serial link of `lib/auxiliary/serial.py`.
  - `SerialCrc`: the CRC-16/CCITT of the frames (polynomial 0x1021, initial value 0, most significant bit first).
  - `SerialFrame`: the nine-octet header, the CRC trailer written low octet first, and the byte stuffing of
    RFC 1662 section 4.2 (flag 0x7E, escape 0x7D, escaped octet XOR 0x20).
  - `SerialReader`: `readPkt`, the octet-by-octet deframer. The octets the device delivers are an input sequence.
  - The round trip is proved: a frame written for a message is read back as that message's body and CRC.
- `PortList` models the Q-BRIDGE-MIB PortList bitmaps (RFC 4363) that the switch drivers set and parse, and the
  `mask`/`inv_mask` tables of `switch.py`.
  - `Switch` models the port and vlan dictionaries of the `Switch` superclass.
  - `Linksys`, `Hp`, `Force10` and `Cisco` model each driver's parsers, tables and reply codes. SNMP walks come
    in as lists of (index, value) rows, and the result of the Force10 cable (TDR) test comes in as text.
- `HenFunctions` models the helper functions of `lib/auxiliary/hen.py`: IPv4 strings, DD/MM/YYYY dates, hex
  digits and string searches.
  - `HenVlan` models the `VLAN`, `Port` and `VlanOwner` classes of the same file. `VLAN` is a class, so the
    dictionary its constructor shares by default is modelled as an aliased object.
- `Dates` models Python's `datetime.date` as the proleptic Gregorian day number, with its calendar fields.
  - `Reservation` models the reservation daemon's table: reserve, release, releaseDevices, renew, update,
    expiry cleanup and the reservation rights.
  - `Notifier` models the daemon's expiry notifier.
  - Today's date and the outcome of each disk write and e-mail are inputs.
- `SwitchDaemon` models the vlan id maps and checks of `bin/daemons/switchdaemon2.py`. The calls into switches
  are inputs.
- `SwitchdDb` and `SwitchDb` model the two forwarding databases. The clock and the testbed description are
  inputs.
- `HenManager` models the id and address allocators, the node-range expansion and the power checks of
  `lib/henmanager.py`. The parsed testbed and the power hardware's replies are inputs.
- `HenParser` models the element filters and the physical-topology entry edits of `henparser.py`, on the
  already parsed tables.
- `PowerDaemon` models the port mapping, the configured power states, their boot phases and the port checks of
  `bin/daemons/powerdaemon.py`.
- `InventoryCgi` models the computations behind `gui/components/inventory/inventorycgi.py`.
- `InventoryJs` models the input checks of `inventory.js`.
  - `Canvas` models the experiment canvas of `canvas.js`.
  - `Calendar` models the experiment calendar of `calendar.js`.
  - `HenJs` models the GUI classes of `gui/auxiliary/hen.js`.
  - `RackLayout`, `PhysicalLocation` and `Status` model the rack drawing of the "Physical Location" and "Status"
    tabs.
  - `JsCommon` gives the JavaScript conversions these scripts rely on (`parseInt`, `Number`, `isNaN`), with
    their prefixed, fraction, exponent and Infinity forms, and the loop `for (i = 0; i < n; i++)` on such a number.
- `Common` holds the Python and JavaScript builtins used everywhere: `str(n)`, `int(s)`, `split`, `join`, an
  `Option` type for `None`/`null`. `Bits` holds Python's bitwise operators on non-negative integers.

Where the source updates an object in place, the model is a class. Its methods carry `modifies` clauses and
state the whole new state. Loops are methods with their invariants, proved against a specification function.
Lemmas about that function state what the source promises. Where the source has a bug, the code as written is
modelled and the bug shown by a concrete input. The evidently intended behaviour is modelled beside it with its
property proved (see "## Findings").

Some places where the code, not its documentation, is followed:

- `readPkt` (`serial.py:450`) drops a frame at its closing flag when `(len(bytes) < 2 and frames < 2) or
  len(bytes) < 5`. Whatever the frame count, that means fewer than five octets, and the model states that
  threshold.
- `hp.py` defines `__parsePortList` twice. Python keeps the later definition (`hp.py:963`), and that is the
  one `Hp.ParsePortList` models: it has no port-count cut-off.
- `henmanager.py` defines `power` twice. The later three-argument definition (`henmanager.py:3631`) is the one
  the class keeps.
- Some quirks are reproduced as they are, because no corrected behaviour is evident:
  - `SerialReader.StaleOctetLeaks`: an octet can leak into the next frame after a short frame.
  - `SerialReader.EscapeFlagIsFlag`: an escaped flag is never reached.
  - `SerialFrame.Serial.WritePkt`: the increment of the sequence number after `return` is unreachable, so the method changes no field and `seqno` keeps its starting value.

## Model

| member | source | states |
|---|---|---|
| SerialCrc.CalcByte | lib/auxiliary/serial.py:34-43 | calc_byte's eight shift/xor rounds on Python's unbounded int give the reference MSB-first CRC-16 step (polynomial 0x1021) of the octet, and the register stays below 2^16 |
| SerialCrc.CalcN | lib/auxiliary/serial.py:45-52 | calcn is 0 for a count of zero or less, the CRC-16/XMODEM of packet[index:index+count] when that lies inside the packet, and an IndexError otherwise |
| SerialCrc.Calc | lib/auxiliary/serial.py:54-55 | calc(packet, n) is the CRC of the first n octets, 0 for n <= 0, IndexError when n exceeds the length |
| SerialCrc.SetCrc | lib/auxiliary/serial.py:57-62 | set overwrites only the last two octets, with crc & 0xFF then crc >> 8 of all the octets before them; a one-octet packet gets 0; an empty one raises |
| SerialCrc.CrcSnoc | lib/auxiliary/serial.py:34-43 | the CRC of s + [b] is the CRC of s fed with b: the register is a left fold of calc_byte |
| SerialCrc.JoinBytes | lib/auxiliary/serial.py:60-61 | the two octets set writes, low first, recombine to the CRC value |
| SerialCrc.SplitJoin | lib/auxiliary/serial.py:60-61 | the split into crc & 0xFF and crc >> 8 is the only split of the CRC into two octets |
| Bits.JoinIsSum | lib/auxiliary/serial.py:474 | readPkt's crc_lo or-ed with crc_hi << 8 equals crc_lo + 256 * crc_hi |
| SerialFrame.StuffFrame | lib/auxiliary/serial.py:369-379 | the stuffing loop yields the opening flag, each octet stuffed, and the closing flag |
| SerialFrame.AppendStuffed | lib/auxiliary/serial.py:371-376 | 0x7E and 0x7D are emitted as 0x7D followed by the octet XOR 0x20; other octets as themselves |
| SerialFrame.FrameDelimited | lib/auxiliary/serial.py:369-379 | a frame starts and ends with 0x7E and holds no other 0x7E |
| SerialFrame.StuffHasNoFlag | lib/auxiliary/serial.py:371-376 | no 0x7E survives stuffing |
| SerialFrame.StuffEscapes | lib/auxiliary/serial.py:371-376 | every 0x7D of a stuffed body is followed by 0x5D or 0x5E, the flipped escape or flag |
| SerialFrame.FlipTwice | lib/auxiliary/serial.py:374 | XOR 0x20 undoes itself, so readPkt's unstuffing inverts writePkt's |
| SerialFrame.Serial.WritePkt | lib/auxiliary/serial.py:346-388 | the frame written is the nine-octet header (0x42, length, 1, 8, seqno mod 256, four 0xFF), the message and the CRC, stuffed between flags; a length outside 0..255 raises; seqno never advances |
| SerialFrame.Serial.WriteMsgAsWritten | lib/auxiliary/serial.py:390-420 | as written: a failing fcntl returns 1; the debug line's ord() raises TypeError for array and int-list messages; otherwise the type dispatch decides |
| SerialFrame.Serial.WriteMsg | lib/auxiliary/serial.py:397-420 | the intended writeMsg: a failing fcntl returns 1, otherwise the type dispatch decides |
| SerialFrame.Serial.Dispatch | lib/auxiliary/serial.py:397-420 | out-of-range type or group raise OverflowError; an empty or mixed list, or another type, returns -1; otherwise writePkt(header + payload, len(msg)) |
| SerialFrame.ListPayload | lib/auxiliary/serial.py:407-416 | a list is refused when empty or when some element's type differs from msg[0]'s; strings go through ord, ints through array append |
| SerialFrame.ArrayMessagesRaise | lib/auxiliary/serial.py:395 | the debug line raises TypeError for any non-empty array message |
| SerialFrame.IntListMessagesRaise | lib/auxiliary/serial.py:395 | and for any list of ints |
| SerialFrame.ArrayMessagesFramed | lib/auxiliary/serial.py:402-420 | without the debug line an array of at most 255 octets is framed with its length |
| SerialFrame.IntListMessagesFramed | lib/auxiliary/serial.py:407-420 | without the debug line a list of ints in 0..255 is framed |
| SerialFrame.ExtractMsg | lib/auxiliary/serial.py:204-211 | __extractMsg is packet[11:-2], empty on packets shorter than 13 octets |
| SerialFrame.ExtractMsgOfBody | lib/auxiliary/serial.py:204-211 | extracting from a written body gives back the payload after type and group |
| SerialFrame.BitString | lib/auxiliary/serial.py:28-32 | bits(n, offset, size) lists bits size-1 down to offset of n, most significant first |
| SerialReader.ReadPkt | lib/auxiliary/serial.py:431-507 | readPkt's loop computes exactly the octet-by-octet state machine Run from the initial state |
| SerialReader.FlagOctet | lib/auxiliary/serial.py:439-484 | the flag branch: resynchronise, drop a short or corrupt frame, or return the packet |
| SerialReader.DataOctet | lib/auxiliary/serial.py:485-507 | the other octets: ignored out of sync, escape handling, bad escapes drop sync |
| SerialReader.TakeOctet | lib/auxiliary/serial.py:496-507 | an accepted octet sets the header field at its position and is folded into the CRC while it lies before the trailer |
| SerialReader.WriteThenRead | lib/auxiliary/serial.py:346-507 | a frame written by writePkt(msg, len(msg)-2) and read by readPkt(0) gives back the body with the CRC octets, pkttype 0x42, the length, msg[0] as type and the matching CRC |
| SerialReader.ReadsFrameBack | lib/auxiliary/serial.py:431-507 | from any idle state a well-formed frame is read back whole, preceded by the octets a count-0 state still holds |
| SerialReader.TrailerJoins | lib/auxiliary/serial.py:457-474 | the closing test recombines the last two octets to the CRC of the rest |
| SerialReader.NoiseIgnored | lib/auxiliary/serial.py:485-486 | octets other than the flag received out of sync change nothing |
| SerialReader.PacketEndsAtFlag | lib/auxiliary/serial.py:439-484 | a packet is returned only on a flag, after consuming at most the input |
| SerialReader.EscapeEscapeDropsSync | lib/auxiliary/serial.py:487-497 | 0x7D 0x7D drops sync and clears the escape flag, returning nothing |
| SerialReader.EscapeFlagIsFlag | lib/auxiliary/serial.py:439-497 | 0x7D 0x7E: the flag test comes first, so the escaped-flag test is never reached |
| SerialReader.ShortFrameDropped | lib/auxiliary/serial.py:450-455 | a closing flag with fewer than five octets buffered returns nothing, goes out of sync and keeps the octets |
| SerialReader.CorruptFrameDropped | lib/auxiliary/serial.py:474-481 | a CRC mismatch returns nothing, goes out of sync and resets the count |
| SerialReader.EscapedOnlyInSync | lib/auxiliary/serial.py:487-491 | the escape flag is only set while in sync |
| SerialReader.StaleOctetLeaks | lib/auxiliary/serial.py:443-455 | after SYNC x SYNC the octet x is returned at the head of the next packet |
| SerialFrame.Serial.constructor | lib/auxiliary/serial.py:90 | a new serial link starts its sequence number at 20 |
| SerialReader.WrittenBodyWellFormed | lib/auxiliary/serial.py:346-388 | every body writePkt builds for a message of 2 to 257 octets, with the length writeMsg passes, carries the matching length octet and ends with the CRC of what precedes it, low octet first |
| Dates.AddDays | bin/daemons/reservationdaemon.py:662 | adding a timedelta moves the day by exactly the given count, and fails exactly when the result leaves the years 1 to 9999 |
| Dates.FromToOrdinal | bin/daemons/reservationdaemon.py:454-456 | every valid calendar date maps to a day number in range and back to itself |
| Dates.ToFromOrdinal | bin/daemons/reservationdaemon.py:907-908 | every day number gives a calendar date that maps back to it |
| HenFunctions.ReverseIPAddress | lib/auxiliary/hen.py:4914-4932 | the rfind loop over ip + "." returns the dot-separated fields of ip in reverse order joined by dots; None gives None |
| HenFunctions.ReverseRound | lib/auxiliary/hen.py:4926-4930 | one round of the loop moves the field before the right dot to the result and steps i back past it |
| HenFunctions.ReverseStepInner | lib/auxiliary/hen.py:4927-4929 | a round that finds a left dot appends the field between the two dots |
| HenFunctions.ReverseStepLast | lib/auxiliary/hen.py:4927-4929 | the last round, with rfind answering -1, appends the leading field |
| HenFunctions.ReversedIPInvolution | lib/auxiliary/hen.py:4914-4932 | reversing an address twice gives it back |
| HenFunctions.DottedIsJoin | lib/auxiliary/hen.py:4929-4932 | appending each field with a dot and dropping the last character is the dot join |
| HenFunctions.GetPartialIPNumber | lib/auxiliary/hen.py:5031-5053 | the find loop computes section n as the text between the n-th and (n+1)-th dot (the end for n = 3); None exactly for sections outside 0..3 |
| HenFunctions.PartialOfQuad | lib/auxiliary/hen.py:5031-5053 | on a.b.c.d with dot-free fields and a non-empty first field, sections 0..3 are a, b, c and d |
| HenFunctions.PartialOfNumbers | lib/auxiliary/hen.py:5031-5053 | on a quad of integers written out, section n is the n-th integer's text |
| HenFunctions.SectionsOfQuad | lib/auxiliary/hen.py:5061-5064 | int() of each section of a written-out quad gives back its integer |
| HenFunctions.QuadOfValue | lib/auxiliary/hen.py:5055-5082 | a quad of octets is recovered from its 32-bit value |
| HenFunctions.IncrementIPAddress | lib/auxiliary/hen.py:5055-5082 | incrementIPAddress: None (a ValueError) where int() refuses one of the four sections, otherwise the carry chain over the sections; IncrementSaturates proves it adds one to the 32-bit value of a quad of octets and keeps 255.255.255.255 |
| HenFunctions.IncrementSaturates | lib/auxiliary/hen.py:5055-5082 | on a quad of octets incrementIPAddress gives the quad of value + 1, and 255.255.255.255 stays 255.255.255.255 |
| HenFunctions.IncrementValue | lib/auxiliary/hen.py:5066-5080 | the carry chain over the four sections adds one to the 32-bit value, saturating at the top address |
| HenFunctions.IncrementCarry | lib/auxiliary/hen.py:5069-5080 | a carry into a section below 255 stays below the top address and adds exactly one |
| HenFunctions.IncrementTop | lib/auxiliary/hen.py:5082 | four sections of 255 give the top address back |
| HenFunctions.IsHigherIPAddress | lib/auxiliary/hen.py:5015-5029 | the loop computes the as-written comparison (true at the first section where the first address is larger, no early false); equal addresses give false |
| HenFunctions.HigherAsWrittenStep | lib/auxiliary/hen.py:5025-5027 | one section of the as-written loop: true when larger, otherwise the later sections decide |
| HenFunctions.HigherAsWrittenBothWays | lib/auxiliary/hen.py:5025-5029 | 1.9.0.0 is higher than 2.0.0.0 and 2.0.0.0 higher than 1.9.0.0 |
| HenFunctions.HigherSecondField | lib/auxiliary/hen.py:5025-5027 | a larger second section makes the first address higher whatever the first sections say |
| HenFunctions.IsHigherIPIsValueOrder | lib/auxiliary/hen.py:5015-5029 | the corrected comparison, with a false at the first smaller section, is the order of the 32-bit values on quads of octets |
| HenFunctions.HigherStep | lib/auxiliary/hen.py:5025-5027 | one section of the corrected comparison: true when larger, false when smaller, else the next section |
| HenFunctions.HigherFromLex | lib/auxiliary/hen.py:5025-5029 | from section i on the corrected comparison is lexicographic on the remaining sections |
| HenFunctions.LexValue | lib/auxiliary/hen.py:5025-5029 | lexicographic order on four octets is the order of their 32-bit values |
| HenFunctions.IsHigherIPAsymmetric | lib/auxiliary/hen.py:5015-5029 | the corrected comparison is never true in both directions |
| HenFunctions.QuadSections | lib/auxiliary/hen.py:5025-5027 | the sections of a written-out quad are its integers, by index |
| HenFunctions.DateAfterAsWrittenAsymmetric | lib/auxiliary/hen.py:4963-4984 | as written isDateAfter(a, a) is False and, on DD/MM/YYYY strings, never true in both directions |
| HenFunctions.DatesOverlapAsWrittenSymmetric | lib/auxiliary/hen.py:4949-4961 | on DD/MM/YYYY strings datesOverlap(a, b, c, d) equals datesOverlap(c, d, a, b) |
| HenFunctions.DateAfterAsWrittenMissesMonths | lib/auxiliary/hen.py:4981-4984 | as written 01/03/2020 is not after 15/02/2020, because the day test alone says False |
| HenFunctions.DateAfterAsWrittenFebMarch | lib/auxiliary/hen.py:4981-4984 | and 10/02/2020 is not after 05/03/2020 either |
| HenFunctions.DatesOverlapAsWrittenWrong | lib/auxiliary/hen.py:4949-4961 | as written the disjoint ranges 1-5 March 2020 and 10-15 February 2020 overlap |
| HenFunctions.ParseDateOfDateString | lib/auxiliary/hen.py:4972-4978 | the int() of the slices [:2], [3:5] and [6:10] of a DD/MM/YYYY string are its day, month and year digits |
| HenFunctions.DateStringInjective | lib/auxiliary/hen.py:4963-4966 | two DD/MM/YYYY strings with the same fields are equal, so the equality test agrees with the field comparison |
| HenFunctions.DateAfterStrictTotal | lib/auxiliary/hen.py:4963-4984 | the corrected isDateAfter, comparing year, then month, then day, is irreflexive, asymmetric and total on DD/MM/YYYY strings |
| HenFunctions.DatesOverlapMeaning | lib/auxiliary/hen.py:4949-4961 | with the corrected order two ranges overlap exactly when neither begins after the other ends, symmetrically |
| HenFunctions.DateAfterSeesMonths | lib/auxiliary/hen.py:4963-4984 | the corrected order puts 1 March after 15 February, so the two ranges above do not overlap |
| HenFunctions.FindFirstNumberInString | lib/auxiliary/hen.py:5102-5110 | -1 exactly when no character is a digit, otherwise the index of the first digit |
| HenFunctions.IsVLANInList | lib/auxiliary/hen.py:4998-5013 | -1 when the list is None or holds no VLAN of that name, otherwise the first index with that name |
| HenFunctions.IntToHexCharacterAsWrittenFails | lib/auxiliary/hen.py:5091-5100 | as written every integer in 0..15 raises NameError, because the body uses an undefined name i |
| HenFunctions.IntToHexCharacter | lib/auxiliary/hen.py:5091-5100 | the intended conversion gives one upper-case hex digit for 0..15 and "-1" exactly outside that range |
| HenFunctions.HexCharacterRoundTrip | lib/auxiliary/hen.py:5084-5100 | convertHexCharacterToInt inverts the corrected conversion on 0..15 and rejects its "-1" |
| HenFunctions.DateAfterAsWritten | lib/auxiliary/hen.py:4963-4984 | isDateAfter as written: false for equal strings, None where int() of a field raises, else true unless the year, the month or the day of the first date is smaller |
| HenFunctions.DatesOverlapAsWritten | lib/auxiliary/hen.py:4949-4961 | datesOverlap as written over it: false when the first range begins after the second ends, else the negation of the second test, the `or` short-circuiting |
| HenFunctions.IntToHexCharacterAsWritten | lib/auxiliary/hen.py:5091-5100 | convertIntToHexCharacter as written: "-1" outside 0..15 and the NameError of the undefined variable inside |
| HenFunctions.HexCharacterToInt | lib/auxiliary/hen.py:5084-5089 | int("0x" + s, 0): the value of the hex digits of s, trailing whitespace skipped, and None for the ValueError of empty or non-hex text |
| HenVlan.IsPortInList | lib/auxiliary/hen.py:4176-4187 | __isPortInList is true exactly when some listed port has the same port number, whatever its tag |
| HenVlan.AddMissingKeepsList | lib/auxiliary/hen.py:4118-4120 | addPorts only appends: the old list is a prefix of the new one |
| HenVlan.AddMissingCoversPorts | lib/auxiliary/hen.py:4118-4120 | after addPorts every given port number is in the switch's list |
| HenVlan.AddMissingAppendsOnlyNew | lib/auxiliary/hen.py:4118-4120 | each appended port is one of those given and its number was in neither the old list nor the ports appended before it |
| HenVlan.AddMissingKeepsDistinct | lib/auxiliary/hen.py:4104-4120 | addPorts keeps the port numbers of a switch distinct |
| HenVlan.RemoveFirstIsFilter | lib/auxiliary/hen.py:4133-4134 | on a list with distinct numbers, list.remove of a member drops exactly the port with its number |
| HenVlan.RemoveNumbersMeaning | lib/auxiliary/hen.py:4122-4134 | with the corrected deletePorts a port stays exactly when it was listed and no given port has its number |
| HenVlan.RemoveNumbersSnoc | lib/auxiliary/hen.py:4132-4134 | deleting one more port filters its number out of the corrected result |
| HenVlan.FilterOutKeepsDistinct | lib/auxiliary/hen.py:4132-4134 | filtering a number out keeps the other numbers distinct and adds no port |
| HenVlan.FilterStep | lib/auxiliary/hen.py:4133-4134 | a number that is not listed changes nothing, and removing a listed member is the filter |
| HenVlan.RemovePortsAgrees | lib/auxiliary/hen.py:4122-4134 | on a list with distinct numbers a deletePorts that does not raise leaves the corrected result, and distinct numbers stay distinct |
| HenVlan.RemovePortsStops | lib/auxiliary/hen.py:4132-4134 | once list.remove has raised, the later ports are not looked at |
| HenVlan.DeleteOtherTagRaises | lib/auxiliary/hen.py:4133-4134 | deleting Port(1, tagged) from a switch holding Port(1, untagged) raises ValueError: the lookup matches but list.remove compares all fields |
| HenVlan.SwitchTable.constructor | lib/auxiliary/hen.py:4010 | a port dict starts empty |
| HenVlan.VlanDefaults.constructor | lib/auxiliary/hen.py:4010 | the one dict Python evaluates for the vlanSwitches default is empty |
| HenVlan.Vlan.constructor | lib/auxiliary/hen.py:4010-4022 | VLAN.__init__ stores each argument as given |
| HenVlan.Vlan.WithDefaultSwitches | lib/auxiliary/hen.py:4010-4022 | VLAN(name) as written takes the shared default dict itself |
| HenVlan.Vlan.WithOwnSwitches | lib/auxiliary/hen.py:4010-4022 | the corrected VLAN(name) gets a fresh empty dict |
| HenVlan.Vlan.PortsOnSwitch | lib/auxiliary/hen.py:4090-4102 | getPortsOnSwitch gives the switch's list, or None when the dict is None or the switch is not a key or was deleted |
| HenVlan.Vlan.AddSwitch | lib/auxiliary/hen.py:4136-4140 | addSwitch maps the switch to an empty list; on a None dict it raises TypeError |
| HenVlan.Vlan.DeleteSwitch | lib/auxiliary/hen.py:4142-4146 | deleteSwitch keeps the key with None as its value; on a None dict it raises TypeError |
| HenVlan.Vlan.AddPorts | lib/auxiliary/hen.py:4104-4120 | a None dict becomes an empty one, a missing or deleted switch gets an empty list, then the ports whose numbers are missing are appended; other switches and fields are unchanged |
| HenVlan.Vlan.DeletePorts | lib/auxiliary/hen.py:4122-4134 | has_key on a None dict raises AttributeError; a missing or deleted switch is left alone; otherwise the list becomes the as-written removal, keeping the removals made before a ValueError |
| HenVlan.DefaultSwitchesShared | lib/auxiliary/hen.py:4010 | as written a port added to one vlan built with the default dict shows up in another |
| HenVlan.OwnSwitchesSeparate | lib/auxiliary/hen.py:4010 | with a dict per vlan the other vlan does not see the port |
| HenVlan.VlanOwner.constructor | lib/auxiliary/hen.py:4233-4236 | the name, owner and vid are stored as given |
| HenVlan.VlanOwner.ToFileString | lib/auxiliary/hen.py:4249-4250 | toFileString: the str text of name, owner and vid joined by commas; Reload proves fromFileString reads it back |
| HenVlan.VlanOwner.FromFileString | lib/auxiliary/hen.py:4252-4259 | the comma-split parts set name, owner and vid; a missing vid becomes -1; a missing owner raises IndexError after the name is set |
| HenVlan.OwnerLineSplits | lib/auxiliary/hen.py:4249-4253 | a line of three comma-free fields splits back into those fields |
| HenVlan.Reload | lib/auxiliary/hen.py:4249-4259 | fromFileString(toFileString()) succeeds and restores the str text of name, owner and vid when none contains a comma |
| HenVlan.SimplePort.constructor | lib/auxiliary/hen.py:4354-4363 | a new port has no untagged or pvid pair, no tagged vlans, no macs, no notes and vlan mode 0 |
| HenVlan.SimplePort.SetUntagged | lib/auxiliary/hen.py:4376-4377 | only the untagged pair changes |
| HenVlan.SimplePort.SetPvid | lib/auxiliary/hen.py:4380-4381 | only the pvid pair changes |
| HenVlan.SimplePort.SetTagged | lib/auxiliary/hen.py:4384-4385 | only the tagged list changes |
| HenVlan.SimplePort.SetMacs | lib/auxiliary/hen.py:4388-4389 | only the mac list changes |
| HenVlan.SimpleVlan.constructor | lib/auxiliary/hen.py:4262-4270 | a new vlan has no untagged, tagged or pvid ports and no notes |
| SwitchModel.Switch.constructor | lib/hardware/switches/switch.py:51-86 | a switch starts with empty port and vlan dictionaries |
| SwitchModel.Switch.GetPort | lib/hardware/switches/switch.py:113-114 | getPort gives the port under the key, and None stands for the KeyError of a missing key |
| SwitchModel.Switch.AddPort | lib/hardware/switches/switch.py:122-123 | addPort stores the port under its own id, so getPort(p.getId()) is p afterwards; nothing else changes |
| SwitchModel.Switch.ClearPorts | lib/hardware/switches/switch.py:125-126 | clearPorts empties the port map, so every getPort fails |
| SwitchModel.Switch.GetPortByName | lib/hardware/switches/switch.py:116-120 | the result has str(name) equal to str(n), and None comes back exactly when no port has that name |
| SwitchModel.Switch.ResetPortsVlanInfo | lib/hardware/switches/switch.py:128-132 | every port gets untagged and pvid (None, None) and no tagged vlans; keys, identities and macs are unchanged |
| SwitchModel.Switch.ResetPortsMacInfo | lib/hardware/switches/switch.py:134-136 | every port loses its macs; keys, identities and vlan membership are unchanged |
| SwitchModel.Switch.GetVlan | lib/hardware/switches/switch.py:175-176 | getVlan gives the vlan under the key, and None stands for the KeyError of a missing key |
| SwitchModel.Switch.GetVlanByName | lib/hardware/switches/switch.py:178-183 | the result's str(name) equals the argument, and None comes back exactly when no vlan matches |
| SwitchModel.Switch.AddVlan | lib/hardware/switches/switch.py:185-186 | addVlan stores the vlan under its local id |
| SwitchModel.Switch.ClearVlans | lib/hardware/switches/switch.py:188-189 | clearVlans empties the vlan map |
| SwitchModel.Switch.RefreshPortInfo | lib/hardware/switches/switch.py:148-170 | the new port keys are exactly the ifName indices whose ifType is "6", each port named as its last such ifName row; the mode rows then set vlan modes until one names a missing port |
| SwitchModel.CollectEthernet | lib/hardware/switches/switch.py:157-160 | the loop collects the indices of the ifType rows whose type is "6", in order |
| SwitchModel.EthernetIndicesMeaning | lib/hardware/switches/switch.py:157-160 | an index is collected exactly when some ifType row with it has type "6" |
| SwitchModel.KeptNamesMeaning | lib/hardware/switches/switch.py:162-165 | an index is kept exactly when some ifName row has it and it is Ethernet, with the name of the last such row |
| SwitchModel.Switch.SetModes | lib/hardware/switches/switch.py:167-170 | the mode loop sets each named port's vlan mode and raises KeyError at the first row naming a missing port |
| SwitchModel.ApplyModesStops | lib/hardware/switches/switch.py:167-170 | after the KeyError the later rows are not applied |
| SwitchModel.ApplyModesMeaning | lib/hardware/switches/switch.py:167-170 | the mode update succeeds exactly when every row names a port, and then each port has the mode of its last row |
| SwitchModel.TaggedPorts | lib/hardware/switches/linksys.py:778-794 | the parsers' Port(n, tagged, n) for each port number, in order |
| SwitchModel.TaggedPortsMembers | lib/hardware/switches/linksys.py:778-794 | a parsed Port list holds exactly the port numbers, each as its own internal id |
| PortList.SetPortList | lib/hardware/switches/linksys.py:752-776 | the loop over every octet and slot changes only the octet of the matching port, or-ing in mask[slot] to enable and and-ing with inv_mask[slot] to disable |
| PortList.UpdatedLength | lib/hardware/switches/linksys.py:752-776 | __setPortList keeps the length and every octet other than (p-1) div 8 |
| PortList.SetBitOnly | lib/hardware/switches/linksys.py:764-767 | or-ing in mask[slot] sets that slot's bit and keeps the others |
| PortList.ClearBitOnly | lib/hardware/switches/linksys.py:768-770 | and-ing with the complement of mask[slot] clears that slot's bit and keeps the others |
| PortList.OtherPortKept | lib/hardware/switches/linksys.py:752-776 | every port other than the given one reads the same bit afterwards |
| PortList.EnableSetsOnlyPort | lib/hardware/switches/linksys.py:764-767 | enabling a port in range sets its bit, and every other port is unchanged |
| PortList.EnableIdempotent | lib/hardware/switches/linksys.py:764-767 | enabling twice is enabling once |
| PortList.OutOfRangeUnchanged | lib/hardware/switches/linksys.py:759-770 | a port below 1 or above 8 * len leaves the list unchanged |
| PortList.InvMaskComplement | lib/hardware/switches/switch.py:48-49 | inv_mask[i] == 255 - mask[i] holds exactly for slots 0 to 5 |
| PortList.DisableSlotsSixSeven | lib/hardware/switches/switch.py:49 | as written disabling port 7 of a full octet clears port 8 and keeps port 7, and disabling port 8 clears nothing |
| PortList.DisableLowSlotsAsWritten | lib/hardware/switches/linksys.py:768-770 | where the two tables agree, in slots 0 to 5, disabling as written equals disabling with the complement table |
| PortList.DisableClearsOnlyPort | lib/hardware/switches/linksys.py:768-770 | with the complement table disabling clears the port's bit and nothing else |
| PortList.OctetPortsMember | lib/hardware/switches/linksys.py:788-791 | the slot loop over one octet yields exactly the ports whose mask bit is set |
| PortList.OctetPortsAscending | lib/hardware/switches/linksys.py:788-791 | and yields them in ascending order within the octet's range |
| PortList.PortsMember | lib/hardware/switches/linksys.py:787-791 | the scan of the first k octets yields exactly the set ports among 1..8k |
| PortList.PortsAscending | lib/hardware/switches/linksys.py:787-791 | in ascending order |
| PortList.ScanMembers | lib/hardware/switches/linksys.py:778-794 | a scan that stops at port n yields exactly the set ports among 1..n, ascending |
| PortList.ScanFull | lib/hardware/switches/linksys.py:787-793 | stopping after an octet is the scan of the whole octets |
| PortList.ScanPart | lib/hardware/switches/hp.py:526-541 | stopping inside octet k is the whole octets before it plus the first slots of octet k |
| PortList.ScanPrefix | lib/hardware/switches/linksys.py:781-784 | a scan only depends on the octets it reaches, so rescanning a longer raw_ports does not change it |
| PortList.ScanOctet | lib/hardware/switches/linksys.py:788-791 | the slot loop appends the octet's set ports to those found before |
| PortList.OctetStopStep | lib/hardware/switches/linksys.py:792-793 | the port-count test after octet k holds exactly when the count is 8k + 8 |
| PortList.ScanCheckingOctets | lib/hardware/switches/linksys.py:785-793 | one scan with the count test after each octet stops exactly when the count is a multiple of 8 within the list, with the ports up to it, else gives every set port |
| PortList.ScanCheckingSlots | lib/hardware/switches/hp.py:526-541 | one scan with the test after each slot stops exactly when 1 <= count <= 8 * len, with the set ports up to count |
| PortList.OctetCut | lib/hardware/switches/linksys.py:778-794 | the last port the octet-checking parse can cover lies within the list |
| PortList.SlotCut | lib/hardware/switches/hp.py:526-541 | and likewise for the slot-checking parse |
| PortList.ParseRescanning | lib/hardware/switches/linksys.py:778-811 | the rescanning parsers give the ascending set ports up to the cut the port count decides |
| PortList.ScanAll | lib/hardware/switches/hp.py:963-978 | the single-scan parser gives every set port in ascending order, with no port-count cut-off |
| PortList.ZeroOctetEmpty | lib/hardware/switches/force10.py:1289-1313 | a zero octet holds no port, so skipping it and advancing by 8 changes nothing |
| PortList.EmptyBitMap | lib/hardware/switches/switch.py:456-463 | getEmptyBitMap(n) is n div 8 zero octets, none for a negative n |
| PortList.EmptyBitMapHasNoPorts | lib/hardware/switches/switch.py:456-463 | an empty bitmap has no member port |
| PortList.PrintPortMap | lib/hardware/switches/switch.py:465-483 | printPortMap's loops compute 'u' or 't' followed by each octet's piece |
| PortList.OctetMapLoop | lib/hardware/switches/switch.py:476-482 | the slot loop prints a space and then the eight bits MSB first |
| PortList.OctetMap | lib/hardware/switches/switch.py:476-482 | a piece is nine characters, a space and then '1' or '0' for each slot |
| PortList.BitCharIsBit | lib/hardware/switches/switch.py:479-482 | a slot prints '1' exactly when its mask bit is set |
| PortList.PortMapLength | lib/hardware/switches/switch.py:465-483 | the printed map is 1 + 9 * len characters and starts with 't' when tagged, else 'u' |
| PortList.PortMapChar | lib/hardware/switches/switch.py:476-482 | character j of octet k's piece sits at 1 + 9k + j |
| PortList.PortMapShowsPorts | lib/hardware/switches/switch.py:465-483 | the map shows port p as '1' exactly when it is a member of the list |
| PortList.PortMapPort | lib/hardware/switches/switch.py:465-483 | port p is printed after the space that opens its octet |
| Common.ParseInt | lib/auxiliary/hen.py:4973-4979 | Python's int(s): surrounding whitespace is skipped, then an optional sign and decimal digits give their value; None stands for the ValueError of anything else |
| JsCommon.ParseIntJs | gui/components/inventory/inventory.js:3906 | parseInt(s) with no radix: leading whitespace skipped, an optional sign, then a 0x or 0X prefix read in hexadecimal and anything else as the longest run of decimal digits; None stands for NaN when no digit follows |
| JsCommon.NumberJs | gui/components/inventory/inventory.js:3906 | Number(s), which isNaN tests: surrounding whitespace skipped, blank text is 0, text int() reads is that integer, and exactly "Infinity", "+Infinity" and "-Infinity" are infinities, negative exactly for "-Infinity"; the 0x, 0b and 0o forms, fractions and exponents have their exact values; anything else is NaN |
| JsCommon.NumberJsStrips | gui/components/inventory/inventory.js:3906 | Number(s) depends only on s with its surrounding whitespace removed |
| JsCommon.NumberJsOfIntToString | gui/components/inventory/inventory.js:3906 | Number reads back the decimal text of every integer |
| JsCommon.NumberJsHex | gui/components/inventory/inventory.js:3906 | Number("0x1F") is 31 |
| JsCommon.NumberJsBinary | gui/components/inventory/inventory.js:3906 | Number("0b101") is 5 |
| JsCommon.NumberJsSignedPrefixIsNaN | gui/components/inventory/inventory.js:3906 | a sign before a radix prefix makes the text NaN: Number("-0x1") is NaN |
| JsCommon.NumberJsFraction | gui/components/inventory/inventory.js:3906 | Number(".5") is exactly one half |
| JsCommon.NumberJsExponent | gui/components/inventory/inventory.js:3906 | Number("-1e3") is -1000 |
| JsCommon.NumberJsInfinity | gui/components/inventory/inventory.js:3906 | Number(" Infinity") is positive infinity, so isNaN of it is false |
| JsCommon.ParseIntJsHex | gui/components/inventory/inventory.js:3906 | parseInt("0x1F") reads 31 |
| JsCommon.ParseIntJsStopsAtExponent | gui/components/inventory/inventory.js:3906 | parseInt stops at the first character that is not a digit: parseInt("1e3") reads 1 |
| JsCommon.ParseIntJsInfinity | gui/components/inventory/inventory.js:3906 | parseInt of "Infinity", signed or not and with whitespace around it, is NaN |
| JsCommon.MinusJs | gui/components/experiment/canvas.js:349 | 32 - network is finite exactly when Number(network) is; NaN stays NaN and an infinity changes sign |
| JsCommon.LoopCountMeaning | gui/components/experiment/canvas.js:345-352 | for a count that is not infinite, i < n holds for a natural i exactly when i is below LoopCount(n), so a loop from 0 runs LoopCount(n) times: none for NaN or n <= 0, n rounded up otherwise |
| JsCommon.LoopCountOfInt | gui/components/experiment/canvas.js:345-352 | a whole count n runs the loop n times, none when it is negative |
| JsCommon.Substring | gui/components/inventory/inventory.js:3835-3850 | s.substring(a, b): both ends clamped to the string, swapped when reversed; on ends already in order it is the slice |
| Linksys.CoveredPorts | lib/hardware/switches/linksys.py:983-987 | with getNumberofPorts() == 48 the parse covers 48 ports when the list holds six octets or more, else all of it |
| Linksys.ParsePortList | lib/hardware/switches/linksys.py:778-794 | Port(n, tagged, n) for each set bit n up to port 48, ascending |
| Linksys.SimpleParsePortList | lib/hardware/switches/linksys.py:796-811 | the same port numbers as plain integers |
| Linksys.ParsedPorts | lib/hardware/switches/linksys.py:778-794 | a port is parsed exactly when its bit is set and it is among the first 48, and none appears twice |
| Linksys.SetThenParse | lib/hardware/switches/linksys.py:752-811 | for 1 <= p <= 48 within the list, parsing __setPortList(pl, p, True) yields a list containing p |
| Linksys.NameTableMeaning | lib/hardware/switches/linksys.py:532-537 | the walk's table has a key exactly when some row has that index, with the name of the last such row |
| Linksys.GetVLANNames | lib/hardware/switches/linksys.py:528-544 | getVLANNames is the walk's table plus '1' mapped to 'Default VLAN' |
| Linksys.DefaultKeyIsExtra | lib/hardware/switches/linksys.py:539-540 | the default entry adds a key and never hides a row of the walk |
| Linksys.LastIndexOfMeaning | lib/hardware/switches/linksys.py:741-744 | the lookup loop answers the index of the last row with that name, or nothing when no row has it |
| Linksys.GetVLANInternalID | lib/hardware/switches/linksys.py:721-748 | "1" for 'Default VLAN', else the index of the last row so named, else -1 |
| Linksys.NamesThenInternalId | lib/hardware/switches/linksys.py:528-748 | for a name the walk carries once, the name getVLANNames lists under an index leads __getVLANInternalID back to that index |
| Hp.ParsePortList | lib/hardware/switches/hp.py:963-978 | the later __parsePortList, which replaces the one at hp.py:806, gives Port(n, tagged, n) for every set bit, ascending, with no port-count cut-off |
| Hp.ParsedPorts | lib/hardware/switches/hp.py:963-978 | a port is parsed exactly when its bit is set, in ascending order |
| Hp.SimpleParsePortList | lib/hardware/switches/hp.py:526-541 | the set ports as numbers, the scan returning as soon as port_number reaches getNumberofPorts() |
| Hp.SimpleParseCut | lib/hardware/switches/hp.py:526-541 | a port count within the list cuts the result there, and any other count leaves every set port |
| Hp.SimpleAgreesWithParse | lib/hardware/switches/hp.py:526-541 | on a switch whose port count does not fall inside the list the two parsers give the same port numbers |
| Hp.PowerStatus | lib/hardware/switches/hp.py:1344-1355 | status gives (0, "on") for 1, (0, "off") for 2 and (-1, message) for anything else |
| Hp.StatusDeterminesResult | lib/hardware/switches/hp.py:1344-1355 | two PoE values with the same status reply are the same value |
| Hp.PowerDetectionStatus | lib/hardware/switches/hp.py:1247-1266 | codes 1 to 6 map to disabled, searching, delivering, fault, test and otherFault, and any other code comes back unchanged |
| Hp.DetectionInjective | lib/hardware/switches/hp.py:1247-1266 | the six names are distinct, so the reply identifies the code |
| Hp.PoeSwitch.constructor | lib/hardware/switches/hp.py:1235-1245 | the PoE table of the switch as given |
| Hp.PoeSwitch.PowerOff | lib/hardware/switches/hp.py:1314-1322 | poweroff writes 2 for the port and answers (0, "success"), or (-1, "could not turn port off") after an SNMP error, which leaves the table unchanged |
| Hp.PoeSwitch.PowerOn | lib/hardware/switches/hp.py:1324-1332 | poweron writes 1 and answers likewise with "could not turn port on" |
| Hp.PoeSwitch.Restart | lib/hardware/switches/hp.py:1334-1342 | restart answers poweron's result whatever poweroff answered, and the port ends on unless poweron failed |
| Cisco.GetVLANNames | lib/hardware/switches/cisco.py:63-84 | the loop builds the index-to-name table of the non-default rows of the walk |
| Cisco.GetVlanInfo | lib/hardware/switches/cisco.py:86-105 | the loop builds the name-to-(index, index) table of the non-default rows |
| Cisco.NameTableMeaning | lib/hardware/switches/cisco.py:63-84 | an index is listed exactly when a row with a name other than the four default names has it, under the name of the last such row |
| Cisco.InfoTableMeaning | lib/hardware/switches/cisco.py:86-105 | a name is listed exactly when it is not a default name and some row has it, paired twice with the index of its last row |
| Cisco.InfoAgreesWithNames | lib/hardware/switches/cisco.py:63-105 | on a walk with distinct indices the index getVlanInfo gives a name is listed under that name by getVLANNames |
| Cisco.SimpleParsePortList | lib/hardware/switches/cisco.py:227-242 | the set ports as numbers, returning as soon as port_number reaches the port count |
| Cisco.ParsePortList | lib/hardware/switches/cisco.py:155-176 | for each set bit n, in order, one Port per bridge-port row about n and ifName row for its ifIndex, named by the ifName, with internal id n |
| Cisco.MatchIds | lib/hardware/switches/cisco.py:169-174 | the loop over the bridge-port rows appends the ports for port n |
| Cisco.IdsForStep | lib/hardware/switches/cisco.py:169-174 | one more bridge-port row adds the ports of its ifIndex when it is about n |
| Cisco.MatchNames | lib/hardware/switches/cisco.py:172-174 | the loop over the ifName rows appends one port per row with that ifIndex |
| Cisco.NamesForMeaning | lib/hardware/switches/cisco.py:172-174 | a port is appended exactly for an ifName row with the ifIndex, carrying its name and n |
| Cisco.IdsForMeaning | lib/hardware/switches/cisco.py:169-174 | a port of n is emitted exactly for a bridge-port row about n and an ifName row for its ifIndex |
| Cisco.ExpandMeaning | lib/hardware/switches/cisco.py:166-174 | over several port numbers, a port is emitted exactly for one of them with such rows |
| Cisco.ParsedPorts | lib/hardware/switches/cisco.py:155-176 | a port is emitted exactly for a set bit n, a bridge-port row about n and an ifName row for that row's ifIndex |
| Cisco.FirstIndexOfMeaning | lib/hardware/switches/cisco.py:271-276 | the lookup answers the index of the first row naming the port, or nothing when none does |
| Cisco.GetPortInternalID | lib/hardware/switches/cisco.py:261-277 | getPortInternalID gives the index of the first ifName row whose value is the port name, else -1 |
| Cisco.InternalIdFound | lib/hardware/switches/cisco.py:261-277 | the id found is that of a row naming the port, and -1 comes back only when no row does or the row's own index is -1 |
| Force10.SlotTest | lib/hardware/switches/force10.py:1296-1311 | one of the eight unrolled tests appends port base + slot + 1 when its mask bit is set |
| Force10.UnrolledOctet | lib/hardware/switches/force10.py:1295-1311 | the eight unrolled tests over a non-zero octet append the octet's set ports in ascending order |
| Force10.ScanSkippingZeros | lib/hardware/switches/force10.py:1292-1312 | the single pass yields every set port, ascending, a zero octet only advancing port_number by 8 |
| Force10.ParsePortList | lib/hardware/switches/force10.py:1289-1313 | __parsePortList gives Port(n, tagged, n) for every set bit n, ascending |
| Force10.SlowParsePortList | lib/hardware/switches/force10.py:1341-1357 | __slowparsePortList, rescanning raw_ports for each octet, gives the same ports as __parsePortList |
| Force10.RescanSkippingZeros | lib/hardware/switches/force10.py:1348-1356 | one rescan yields every set port of raw_ports, ascending |
| Force10.ParsedPorts | lib/hardware/switches/force10.py:1289-1357 | both parsers hold exactly the set ports of the list, ascending |
| Force10.Force10E1200.constructor | lib/hardware/switches/force10.py:1496-1506 | portIfIndexMap and portIfIndexMapRev are the forward and backward tables of the bridge-port walk |
| Force10.BuildMaps | lib/hardware/switches/force10.py:1503-1506 | the walk loop maps each port to its ifIndex and each ifIndex back to its port, the last row winning |
| Force10.ForwardMeaning | lib/hardware/switches/force10.py:1503-1505 | a port is a key of portIfIndexMap exactly when some row has it, with the ifIndex of its last row |
| Force10.BackwardMeaning | lib/hardware/switches/force10.py:1503-1506 | an ifIndex is a key of portIfIndexMapRev exactly when some row has it, with the port of its last row |
| Force10.MapsInverse | lib/hardware/switches/force10.py:1501-1506 | the two maps are mutual inverses when the rows are one-to-one |
| Force10.Lookup | lib/hardware/switches/force10.py:1322-1337 | mapping the ports through portIfIndexMap keeps their number, and a missing port gives the KeyError |
| Force10.LookupMeaning | lib/hardware/switches/force10.py:1322-1337 | the lookup succeeds exactly when every port is a key, and then holds each port's ifIndex in order |
| Force10.Force10E1200.SimpleParsePortList | lib/hardware/switches/force10.py:1315-1339 | __simpleParsePortList gives portIfIndexMap[n] for each set bit n, ascending, or the KeyError of a missing port |
| Force10.CardNames | lib/hardware/switches/force10.py:1528-1535 | distinct card numbers give distinct card names, and no card name is a fan tray's |
| Force10.SensorNameInjective | lib/hardware/switches/force10.py:1528-1535 | 8 is fantray0, 9 fantray1, n < 8 card(n-1) and n > 9 card(n-3), and no two slots share a name |
| Force10.DescribedSlots | lib/hardware/switches/force10.py:1476-1538 | a slot's name is one of SENSOR_DESCRIPTIONS exactly for slots 1 to 17, so only those readings are stored |
| Force10.PortTdr | lib/hardware/switches/force10.py:1452-1462 | the report is "TDR result :" followed by each "Pair" line, stripped, when code is 1, else the error text; success is four "OK" and four "Terminated" in it |
| Force10.AppendPairLines | lib/hardware/switches/force10.py:1455-1458 | the loop appends each output line holding "Pair", stripped, on a line of its own |
| Force10.PairReportStep | lib/hardware/switches/force10.py:1456-1458 | one more output line extends the report by its piece |
| Force10.TdrPassedNeedsPairs | lib/hardware/switches/force10.py:1452-1462 | a passing verdict needs expect code 1 and at least one "Pair" line |
| Force10.TdrText | lib/hardware/switches/force10.py:1451-1457 | the report getPortTdr builds: the error line unless the expect code is 1, else the header with every output line holding "Pair", left-stripped, on a line of its own |
| Force10.TdrPassed | lib/hardware/switches/force10.py:1458-1461 | the verdict: exactly four "OK" and exactly four "Terminated" in the report |
| Reservation.DateString | bin/daemons/reservationdaemon.py:133-136 | getDDMMYYYYDate: day, month and year of the end day, unpadded, separated by '/'; DateStringRoundTrip proves __convertToDate reads it back as the same day |
| Reservation.ConvertToDate | bin/daemons/reservationdaemon.py:454-456 | __convertToDate: the date of the third, second and first '/'-separated fields, None where the source raises (fewer than three fields, a field int() refuses, no such calendar date) |
| Reservation.DateStringRoundTrip | bin/daemons/reservationdaemon.py:133-136 | the D/M/YYYY text a reservation is written with reads back through __convertToDate (reservationdaemon.py:454-456) as the same day |
| Reservation.AppendDevices | bin/daemons/reservationdaemon.py:138-141 | appendDevices adds, in order, each device of the list the reservation does not hold yet |
| Reservation.AppendedMeaning | bin/daemons/reservationdaemon.py:138-141 | the old list stays in front, the devices held afterwards are the old ones and the given ones, and nothing is added that was held before or twice |
| Reservation.RemoveFirst | bin/daemons/reservationdaemon.py:145-148 | list.remove takes out one occurrence, and a missing device leaves the list as it was |
| Reservation.RemoveDevices | bin/daemons/reservationdaemon.py:143-148 | removeDevices removes each named device once, ignoring the ValueError of one not held |
| Reservation.RemovedMeaning | bin/daemons/reservationdaemon.py:143-148 | what is left is the old list minus the named devices, counted as a multiset difference |
| Reservation.FirstInUse | bin/daemons/reservationdaemon.py:668-671 | the device the "already reserved" error names is the first of the list in use, and there is none exactly when no device is in use |
| Reservation.HighestIDUnique | bin/daemons/reservationdaemon.py:846-853 | the id __findHighestID returns is determined by the table |
| Reservation.HighestIDBelow | bin/daemons/reservationdaemon.py:846-858 | after a recount nextID lies above every reservation id |
| Reservation.UnexpiredMeaning | bin/daemons/reservationdaemon.py:729-742 | a reservation survives cleaning exactly when its end day is not before today |
| Reservation.IndexOfId | bin/daemons/reservationdaemon.py:543-548 | the reservation the loops break at is the first of the list with the id, and there is none exactly when no reservation has it |
| Reservation.CapRightsSome | bin/daemons/reservationdaemon.py:790-794 | in the intended numeric reading, the loop over the rights gives a number exactly when it starts from one and every right covering the device has a numeric maxweeks |
| Reservation.CapRightsBound | bin/daemons/reservationdaemon.py:790-794 | in the intended numeric reading, the limit the loop leaves is at most its start and at most the maxweeks of every right covering the device |
| Reservation.CapRightsAttained | bin/daemons/reservationdaemon.py:790-794 | in the intended numeric reading, the limit the loop leaves is its start or the maxweeks of a right covering the device |
| Reservation.CapRightsMeaning | bin/daemons/reservationdaemon.py:790-794 | for one device, in the intended numeric reading of maxweeks (see "## Findings"), the limit is lowered to the least maxweeks of the rights covering it, None when one of those is not a number |
| Reservation.CapDevicesMeaning | bin/daemons/reservationdaemon.py:786-794 | over all devices the limit is the least maxweeks of the rights covering some device, 99999 when none covers any |
| Reservation.MaxWeeksDefault | bin/daemons/reservationdaemon.py:782-799 | the default weeks apply to a user without rights, to an empty device list, and when some device no right covers |
| Reservation.MaxWeeksCovered | bin/daemons/reservationdaemon.py:782-799 | with every device covered the limit is the least maxweeks that applies |
| Reservation.MaxWeeksAsWritten | bin/daemons/reservationdaemon.py:782-799 | as written maxweeks is the string parseRightsDB reads (reservationdaemon.py:367), which in Python 2 never compares below an int, so a covered device list gives 99999 |
| Reservation.MaxWeeksAsWrittenIgnoresRights | bin/daemons/reservationdaemon.py:793-794 | a right of two weeks on a device gives 99999 weeks as written and 2 as intended |
| Reservation.Clamp | bin/daemons/reservationdaemon.py:662-666 | the end day kept is the desired one when it is within the limit and the limit otherwise, never beyond either |
| Reservation.StoreIdsBelow | bin/daemons/reservationdaemon.py:673-677 | a new entry under the next id keeps every id below the incremented nextID |
| Reservation.CleanedWithin | bin/daemons/reservationdaemon.py:729-742 | cleaning only removes reservations, and keeps those not yet ended |
| Reservation.CleanedIdsBelow | bin/daemons/reservationdaemon.py:729-742 | the ids stay below nextID across cleaning |
| Reservation.IdsBelowUpdate | bin/daemons/reservationdaemon.py:622-653 | replacing a user's list by one whose ids are below nextID keeps the table below it |
| Reservation.ReplaceIdsBelow | bin/daemons/reservationdaemon.py:605-612 | replacing one reservation by one with the same id keeps the table below nextID |
| Reservation.Changed | bin/daemons/reservationdaemon.py:638-644 | update changes only the devices and, when one is given, the e-mail address |
| Reservation.UpdateRollbackAsWritten | bin/daemons/reservationdaemon.py:636-647 | the value update restores as the devices after a failed write, as written: the end date; UpdateRollbackAsWrittenLosesDevices proves it is never the old device list |
| Reservation.UpdateRollbackAsWrittenLosesDevices | bin/daemons/reservationdaemon.py:636-647 | the rollback of a failed update sets the device list to the end date, never to the old devices |
| Reservation.KeepTakenCount | bin/daemons/reservationdaemon.py:567-570 | each device of a reservation is either kept or released, as often as it occurs |
| Reservation.KeepTakenMembers | bin/daemons/reservationdaemon.py:567-570 | the devices kept are those not named and the devices released those named |
| Reservation.StripAll | bin/daemons/reservationdaemon.py:566-570 | every reservation of the user has the named devices taken out, in place |
| Reservation.NonEmptyMeaning | bin/daemons/reservationdaemon.py:573-575 | the reservations left are exactly those still holding a device |
| Reservation.TakenAllMeaning | bin/daemons/reservationdaemon.py:566-570 | a device is released exactly when it is named and some reservation of the user holds it |
| Reservation.ReleaseDevicesMeaning | bin/daemons/reservationdaemon.py:559-589 | the intended releaseDevices leaves no named device and no empty reservation, each left one a former one with the named devices taken out |
| Reservation.StripEntry | bin/daemons/reservationdaemon.py:567-570 | the inner loop, as intended, splits one reservation's devices into those kept and those released |
| Reservation.DropEmpty | bin/daemons/reservationdaemon.py:573-575 | the loop from the back deletes the reservations without devices |
| Reservation.StripUser | bin/daemons/reservationdaemon.py:566-575 | both loops over one user's list give the stripped non-empty reservations and the released devices |
| Reservation.StripUserIdsBelow | bin/daemons/reservationdaemon.py:559-589 | releaseDevices keeps ids below a bound |
| Reservation.ReleasedMessage | bin/daemons/reservationdaemon.py:585-588 | the reply is "released: " and the released devices joined by ", ", the last separator cut off |
| Reservation.TrailingJoin | bin/daemons/reservationdaemon.py:585-588 | each device followed by ", " is the join followed by one ", " |
| Reservation.IterRemoveAsWritten | bin/daemons/reservationdaemon.py:567-570 | releaseDevices' inner loop as written: the iterator moves on by index over the list being removed from, giving the kept list and the released devices; IterRemoveAsWrittenSkips exhibits the skipped device |
| Reservation.IterRemoveAsWrittenSkips | bin/daemons/reservationdaemon.py:567-570 | removing from the list being iterated skips a device: releasing both devices of a two-device reservation releases only the first |
| Reservation.CleanListAsWritten | bin/daemons/reservationdaemon.py:733-735 | cleanExpired's loop over one user's list as written: an expired reservation is removed by id and the iteration index moves on past the next one; CleanListAsWrittenSkips exhibits the survivor |
| Reservation.CleanListAsWrittenSkips | bin/daemons/reservationdaemon.py:733-735 | release removing from the list cleanExpired iterates makes the second of two expired reservations in a row survive |
| Reservation.HighestIn | bin/daemons/reservationdaemon.py:849-852 | the largest id of one list, from a start value |
| Reservation.HoldsDevice | bin/daemons/reservationdaemon.py:866-869 | whether some reservation of a list holds the device |
| Reservation.FindId | bin/daemons/reservationdaemon.py:543-548 | the loop finds the first reservation with the id |
| Reservation.SplitExpired | bin/daemons/reservationdaemon.py:732-735 | one user's list splits into the reservations not yet ended and the ids of those that have |
| Reservation.SplitTable | bin/daemons/reservationdaemon.py:729-742 | the intended loop over the users removes every expired reservation and collects their ids |
| Reservation.NotesAfterSplit | bin/daemons/reservationdaemon.py:729-774 | removals that each re-read what the previous one wrote compose: dropping the ids a, then b, is dropping a + b, so the order of cleanExpired's releases and its second removal of each id change nothing |
| Reservation.CapByRights | bin/daemons/reservationdaemon.py:790-794 | the loop over the rights lowers the limit by those covering the device and marks exactly it found |
| Reservation.ReservationDB.constructor | bin/daemons/reservationdaemon.py:462-472 | empty reservation, notification and rights tables, nextID 0, the given default weeks |
| Reservation.ReservationDB.FindHighestID | bin/daemons/reservationdaemon.py:846-853 | __findHighestID is 0 or the largest id, above or equal to every id |
| Reservation.ReservationDB.GetOwner | bin/daemons/reservationdaemon.py:863-870 | __getOwner gives a user holding the device, None exactly when nobody does |
| Reservation.ReservationDB.IsDeviceInUse | bin/daemons/reservationdaemon.py:860-861 | a device is in use exactly when some reservation holds it |
| Reservation.ReservationDB.FirstDeviceInUse | bin/daemons/reservationdaemon.py:668-671 | the first device of the list in use, as the loop that returns at it finds it |
| Reservation.ReservationDB.ReservedDevicesByID | bin/daemons/reservationdaemon.py:881-887 | __getReservedDevicesByID gives the devices of a reservation with the id, or [] when there is none |
| Reservation.ReservationDB.GetMaxWeeks | bin/daemons/reservationdaemon.py:782-799 | __getMaxWeeks as intended, with maxweeks read as numbers (see "## Findings"): the loop computes the limit the lemmas above describe |
| Reservation.ReservationDB.CleanExpired | bin/daemons/reservationdaemon.py:729-742 | as intended every expired reservation is released and nextID recounted once a release is written; the loop drops each expired id twice (release, then cleanExpired), each drop re-reading the notifications file and writing it back, so a readable file ends without the expired ids and an unreadable or missing one leaves the table alone |
| Reservation.ReservationDB.Release | bin/daemons/reservationdaemon.py:535-557 | unknown user and unknown id leave everything; otherwise the first reservation with the id goes, the notifications table becomes the re-read file without the id (unchanged when the file is missing or unreadable), and the change stays after a failed write because the backup is the same dict |
| Reservation.ReservationDB.ReleaseDevices | bin/daemons/reservationdaemon.py:559-589 | the intended releaseDevices: the named devices leave every reservation of the user, empty ones are deleted even when nothing was released, and the reply lists the released devices |
| Reservation.ReservationDB.FinishRelease | bin/daemons/reservationdaemon.py:577-589 | no released device gives "none of the devices were found in your reservations", a failed write the error text, else the list, with nextID recounted |
| Reservation.ReservationDB.Renew | bin/daemons/reservationdaemon.py:591-620 | renew as intended (see "## Findings"): it cleans with the intended cleanExpired, then works on the cleaned table and on the notifications file as cleaning wrote it, looking up the reservation's devices for the limit |
| Reservation.ReservationDB.RenewCleaned | bin/daemons/reservationdaemon.py:595-620 | renew after cleaning, with the intended numeric limit (see "## Findings"): an end day not after today is refused; otherwise the end day is clamped to today plus the weeks the devices allow |
| Reservation.ReservationDB.SetEndDate | bin/daemons/reservationdaemon.py:603-618 | the first reservation of the user with the id gets the new end day, and the notifications table becomes the re-read file without the id (unchanged when the file is missing or unreadable); a failed write puts the old day back; no match gives the "no reservation found" reply |
| Reservation.ReservationDB.Update | bin/daemons/reservationdaemon.py:622-653 | update as intended (see "## Findings"): it cleans with the intended cleanExpired, dropping the expired reservations' notifications from the re-read notifications file, then runs the intended update on the cleaned table |
| Reservation.ReservationDB.UpdateCleaned | bin/daemons/reservationdaemon.py:626-653 | the intended update: adding refuses a device in use; the first reservation with the id gets devices and address changed; a failed write restores both |
| Reservation.ReservationDB.StartDB | bin/daemons/reservationdaemon.py:502-533 | startDB, cleaning with the intended cleanExpired (see "## Findings"): an unreadable database gives -1; no database starts the ids at 1, a parsed one after its highest id; then the table is cleaned, and missing or unparsable rights give -1 |
| Reservation.ReservationDB.Reserve | bin/daemons/reservationdaemon.py:655-691 | reserve as intended (see "## Findings"): it cleans with the intended cleanExpired, dropping the expired reservations' notifications from the re-read notifications file, then reserves on the cleaned table |
| Reservation.ReservationDB.ReserveCleaned | bin/daemons/reservationdaemon.py:659-691 | reserve after cleaning, with the intended numeric limit (see "## Findings"): an end day in the past or a device in use refuses; otherwise the clamped end day is stored under the next id |
| Reservation.ReservationDB.Store | bin/daemons/reservationdaemon.py:673-683 | the entry takes the next id and joins the user's list; after a failed write it is taken out again, the id stays used and the user keeps a list |
| Reservation.ReservationDB.RemoveNotifications | bin/daemons/reservationdaemon.py:751-774 | a missing or unreadable notifications file returns before anything changes; otherwise the table becomes the file's table (empty when it has no notification tags) without the reservation's entry, and that table is what is written back; nothing else changes |
| Notifier.FirstDue | bin/daemons/reservationdaemon.py:284-285 | the window the loop breaks at is one of the list the end day falls in, and there is none exactly when the end day is at least every window away |
| Notifier.FirstDueLeast | bin/daemons/reservationdaemon.py:283-285 | with the windows listed shortest first, the one the loop stops at is the shortest that applies |
| Notifier.DueDay | bin/daemons/reservationdaemon.py:284-296 | the window loop: the first of 1, 2 and 7 days whose bound the end day falls before, then break; DueDayLeast proves it is the shortest window that applies and none exactly when the end is 7 or more days away |
| Notifier.DueDayLeast | bin/daemons/reservationdaemon.py:185 | for the windows 1, 2 and 7 days the notice names the shortest window that applies, and none is due exactly when the end is 7 or more days away |
| Notifier.AlreadySentRecorded | bin/daemons/reservationdaemon.py:297-305 | after a notice is recorded for a window it counts as sent for that window and every longer one and no shorter one, and other reservations are unaffected |
| Notifier.LoweredKeepsSent | bin/daemons/reservationdaemon.py:291 | a notice counted as sent stays so while recorded windows only shrink |
| Notifier.ExpiryNotifier.constructor | bin/daemons/reservationdaemon.py:181-185 | the notifier starts with empty reservation and notification tables |
| Notifier.ExpiryNotifier.NotifyEntry | bin/daemons/reservationdaemon.py:282-295 | for one reservation, a notice due and e-mailed is recorded for its window, recorded windows only shrink and every change is that notice |
| Notifier.ExpiryNotifier.NotifyList | bin/daemons/reservationdaemon.py:280-295 | over one user's list every reservation due whose e-mail goes out is recorded, and every change comes from such a notice |
| Notifier.ExpiryNotifier.SendEarlyExpiryNotifications | bin/daemons/reservationdaemon.py:277-295 | over all users every due reservation whose e-mail goes out has its notice recorded, windows only shrink, reservations are unchanged and every change comes from a notice |
| SwitchDaemon.RewriteVlanMeaning | bin/daemons/switchdaemon2.py:1306-1310 | the four names the drivers give the default vlan become "Default", every other name stays, and rewriting twice changes nothing more |
| SwitchDaemon.PortModeRequest | bin/daemons/switchdaemon2.py:535-561 | a request goes on to the switch only with three arguments and a known mode, and is rejected with code 400 otherwise |
| SwitchDaemon.PortModeRequestMeaning | bin/daemons/switchdaemon2.py:537-548 | a request is forwarded exactly when it has three arguments and the mode is general, access or trunk, and any other mode is rejected as an incorrect mode |
| SwitchDaemon.Store | bin/daemons/switchdaemon2.py:808-821 | one store of __allocate_id creates the inner dictionary when missing and then sets the entry |
| SwitchDaemon.Put2Meaning | bin/daemons/switchdaemon2.py:808-821 | after the store the entry has the value, every other entry stays, and no entry appears except the stored one |
| SwitchDaemon.NextIdFromMeaning | bin/daemons/switchdaemon2.py:822-827 | the search returns the least id from its start to 4094 that is not allocated, and none exactly when all are |
| SwitchDaemon.FirstGapMeaning | bin/daemons/switchdaemon2.py:1426-1435 | on an ascending list the loop's answer other than the minimum is unlisted and one above a listed id, and the minimum comes back exactly when the ids leave no gap |
| SwitchDaemon.NoGapStep | bin/daemons/switchdaemon2.py:1428-1433 | one step of the loop: the rest of the list leaves no gap after its first id exactly when the whole list leaves none |
| SwitchDaemon.FreeIdMeaning | bin/daemons/switchdaemon2.py:1426-1435 | the id picked from the sorted ids is unused and one above an id in use or the minimum, and the minimum comes back exactly when no gap is left |
| SwitchDaemon.GapOfPermutation | bin/daemons/switchdaemon2.py:1426 | the gap found on any ascending arrangement of the ids has the same meaning as on the sorted list |
| SwitchDaemon.VlanAllocator.constructor | bin/daemons/switchdaemon2.py:137-138 | the daemon starts with empty name and id maps, no vlan tables and the given id range |
| SwitchDaemon.VlanAllocator.AllocateId | bin/daemons/switchdaemon2.py:808-821 | the vlan's id on the switch is recorded in the name map and the vlan in the id map, and nothing else changes |
| SwitchDaemon.VlanAllocator.VlanGetNextId | bin/daemons/switchdaemon2.py:822-827 | the least id in 100 to 4094 no switch has allocated, or -1 when there is none |
| SwitchDaemon.VlanAllocator.VlanCreate | bin/daemons/switchdaemon2.py:828-841 | without a free id nothing changes and the vlan is out of ids; otherwise the next id is recorded whatever the switch replied, and the switch's reply is passed on |
| SwitchDaemon.VlanAllocator.VlanAddPort | bin/daemons/switchdaemon2.py:842-873 | a vlan the switch lacks is created first; a creation failing or out of ids stops before the port call, and the port is added tagged or untagged, any other tag refused |
| SwitchDaemon.VlanAllocator.GetNextFreeVlanId | bin/daemons/switchdaemon2.py:1402-1437 | an unknown switch raises KeyError; otherwise the answer is one past the first gap after the minimum among the ids in range, or the minimum |
| SwitchDaemon.CollectIds | bin/daemons/switchdaemon2.py:1409-1415 | the ids the loop collects are exactly those of the table that lie in the range |
| SwitchdDb.IsLink | lib/auxiliary/switchd/switchdb.py:200-211 | true exactly when the switch port is a member of some link of the topology |
| SwitchdDb.FirstExternal | lib/auxiliary/switchd/switchdb.py:185-194 | the member isExternal compares with is the first member of the first external link that has members, and there is none exactly when no external link has members |
| SwitchdDb.IsExternal | lib/auxiliary/switchd/switchdb.py:180-198 | the answer is whether that one member is the port, and None when the loop falls off the end |
| SwitchdDb.WriteEntryMeaning | lib/auxiliary/switchd/switchdb.py:213-224 | a sighting on a port that is not external is stored with its link flag and time, one on an external port only drops an old sighting there, everything else stays, and no mac is left without sightings |
| SwitchdDb.WriteEntryNoEmpty | lib/auxiliary/switchd/switchdb.py:222-223 | writeFdbEntry keeps every record of the forwarding database non-empty |
| SwitchdDb.CleanedFdbMeaning | lib/auxiliary/switchd/switchdb.py:226-242 | cleaning keeps every sighting at or after the cut-off, drops every earlier one of a mac with a known owner and interface, leaves the other macs as they are, and leaves no empty record |
| SwitchdDb.CleanedFdbNoEmpty | lib/auxiliary/switchd/switchdb.py:238-240 | cleaning keeps every record non-empty |
| SwitchdDb.DropStale | lib/auxiliary/switchd/switchdb.py:234-237 | the loop over one mac's sightings deletes exactly those before the cut-off |
| SwitchdDb.LocateMac | lib/auxiliary/switchd/switchdb.py:108-125 | the mac is upper-cased; an unknown one gives None, otherwise every port it was seen on, or with unique the one port off any link when there is exactly one and None else |
| SwitchdDb.HostStatus | lib/auxiliary/switchd/switchdb.py:144-148 | getHostStatus: the status stored for the node, -1 when none is; HostStatusMeaning ties it to setHostStatus |
| SwitchdDb.HostStatusMeaning | lib/auxiliary/switchd/switchdb.py:139-148 | a node never set has status -1, and after setHostStatus it has the status set while other nodes keep theirs |
| SwitchdDb.StoreSighting | lib/auxiliary/switchd/switchdb.py:215-223 | the dictionary updates of writeFdbEntry give the record the lemmas above describe |
| SwitchdDb.SwitchDB.constructor | lib/auxiliary/switchd/switchdb.py:73-76 | a new database has no sightings, no links and no host statuses |
| SwitchdDb.SwitchDB.SetHostStatus | lib/auxiliary/switchd/switchdb.py:139-142 | the node's status is set and nothing else changes |
| SwitchdDb.SwitchDB.WriteFdbEntry | lib/auxiliary/switchd/switchdb.py:213-224 | the sighting is stored as the external test and the link test of the topology decide, and the links and statuses stay |
| SwitchdDb.SwitchDB.CleanFdb | lib/auxiliary/switchd/switchdb.py:226-242 | the sightings older than timeout seconds before now are dropped with the records left empty, and the links and statuses stay |
| SwitchDb.FirstPort | lib/auxiliary/switchdb.py:95-102 | the entry getPort returns is the first with the port name, and there is none exactly when no entry has it |
| SwitchDb.UpdatedPortsMeaning | lib/auxiliary/switchdb.py:88-93 | after updatePort the port is found with the new time, an entry is added only when it had none, and the other ports' entries stay |
| SwitchDb.Trunked | lib/auxiliary/switchdb.py:77-80 | setTrunk keeps the number of entries |
| SwitchDb.TrunkedMeaning | lib/auxiliary/switchdb.py:77-80 | every entry for the port becomes a trunk keeping its name and time, the others stay, and a second call changes nothing |
| SwitchDb.FdbLocation.constructor | lib/auxiliary/switchdb.py:72-75 | a location holds its switch and one entry for the port and time, not a trunk |
| SwitchDb.FdbLocation.SetTrunk | lib/auxiliary/switchdb.py:77-80 | the location's entries become those setTrunk leaves and the switch stays |
| SwitchDb.FdbLocation.UpdatePort | lib/auxiliary/switchdb.py:88-93 | the location's entries become those updatePort leaves and the switch stays |
| SwitchDb.FdbLocation.GetPort | lib/auxiliary/switchdb.py:95-102 | the first entry for the port, or None when there is none |
| SwitchDb.FdbLocation.AddPort | lib/auxiliary/switchdb.py:104-105 | one entry for the port is appended whether or not the port has one |
| SwitchDb.FdbEntry.constructor | lib/auxiliary/switchdb.py:114-120 | the mac is stored upper-cased with no device or interface, and a first location is recorded only when switch, port and time are all given |
| SwitchDb.FdbEntry.UpdateLocation | lib/auxiliary/switchdb.py:140-147 | an unknown switch gets a new location with the one entry; a known switch's location gets the updated entries; other switches' locations stay |
| SwitchDb.FdbEntry.SetTrunk | lib/auxiliary/switchdb.py:164-165 | a known switch's location has the port marked a trunk and the others stay; an unknown switch raises KeyError and nothing changes |
| SwitchDb.FdbEntry.SetLocation | lib/auxiliary/switchdb.py:158-162 | an unknown switch gets a new location; a known one raises AttributeError, because FDB_Location has no setPort, and nothing changes |
| SwitchDb.FirstSwitchPort | lib/auxiliary/switchdb.py:268-271 | the port the loops return at is the first naming the switch and port, and there is none exactly when no port does |
| SwitchDb.IsTrunk | lib/auxiliary/switchdb.py:266-277 | the trunk flag of the first port naming the switch and port, and false when none does |
| SwitchDb.LastFreeIn | lib/auxiliary/switchdb.py:309-311 | a port of the list that is not a trunk, none exactly when all are trunks |
| SwitchDb.LastFree | lib/auxiliary/switchdb.py:308-311 | a switch and port of the mac's locations that is not a trunk, none exactly when all are trunks |
| SwitchDb.ScanLocations | lib/auxiliary/switchdb.py:308-313 | the loops over the locations and ports end with the last port visited that is not a trunk |
| SwitchDb.FindUniqueMacs | lib/auxiliary/switchdb.py:296-324 | a mac asked for is in the result exactly when it is unknown or has a port off any trunk; an unknown mac maps to unknown, unknown and a known one to its last free port |
| HenManager.TrailingStart | lib/henmanager.py:3887 | the regular expression \d+$ finds the longest run of digits that ends the id |
| HenManager.HighestNumberMeaning | lib/henmanager.py:3859-3862 | the loop over the ids raises exactly when one id's number cannot be read; otherwise its result is at least the minimum and every counted number, and is the minimum or one of them |
| HenManager.NextId | lib/henmanager.py:3864-3868 | the id returned after the loop: the type name and the minimum when the highest number is the minimum and no element has that id, else one more than the highest; None where int() raises; NextIdMeaning states what that id means |
| HenManager.NextIdMeaning | lib/henmanager.py:3864-3868 | the new id is the type name and the minimum exactly when no number exceeds the minimum and no element has that id; otherwise its number exceeds the minimum and every counted number |
| HenManager.GetNextId | lib/henmanager.py:3847-3918 | the loop of __getNextInfrastructureID, __getNextNodeID (only ids containing the type, trailing digits) and __getNextFileNodeID computes that id, the minimum for a failed lookup, and raises where they do |
| HenManager.HighestStep | lib/henmanager.py:3882-3889 | one step of the loop over the node ids |
| HenManager.IPScanMeaning | lib/henmanager.py:3934-3945 | the highest address the loop keeps is base.minimum or an address containing the base |
| HenManager.NextIPAddress | lib/henmanager.py:3947-3953 | the end of __getNextIPAddress: the increment of the highest address when it was raised, base.minimum when that is the highest, otherwise its increment; NextIPAddressMeaning states what the result means |
| HenManager.NextIPAddressMeaning | lib/henmanager.py:3947-3953 | when every address containing the base is below base.minimum and none equals it the answer is base.minimum, and any other answer is the increment of base.minimum or of such an address |
| HenManager.ScanBelowStart | lib/henmanager.py:3941-3945 | addresses all below the start leave the scan at the start with no increment |
| HenManager.GetNextIPAddress | lib/henmanager.py:3920-3953 | the loops over all interfaces compute __getNextIPAddress, base.minimum for a failed lookup, and raise where isHigherIPAddress raises |
| HenManager.ScanPrefixStep | lib/henmanager.py:3940-3945 | one step of the loop over the addresses |
| HenManager.FailedScanStays | lib/henmanager.py:3942 | once a comparison raises, the rest of the loop does not run |
| HenManager.SpecOf | lib/henmanager.py:273-296 | the case analysis of a subrange: a range it looks up always has a positive step, since a zero step raises |
| HenManager.RangeSeqMeaning | lib/henmanager.py:299 | range(i, j + 1, k) holds exactly the numbers from i to j that are i plus a multiple of k |
| HenManager.PickedMeaning | lib/henmanager.py:297-301 | an id is added exactly when it exists and is the type name followed by a number of the range |
| HenManager.JoinedUnits | lib/henmanager.py:269-301 | adding subranges' nodes one after another is the same as adding their union |
| HenManager.PlainRangePicks | lib/henmanager.py:277-278 | a subrange a-b picks exactly the existing ids of the type numbered a to b |
| HenManager.StopCases | lib/henmanager.py:274-276 | a ':' without a step, and a number with a step but no '-', stop the expansion with what was found so far |
| HenManager.AddRange | lib/henmanager.py:299-301 | the loop over one range adds exactly the picked ids, each with its node |
| HenManager.GetNodeRange | lib/henmanager.py:254-302 | the result holds exactly the selected nodes, each with its own entry, up to the first subrange that stops; a zero step raises |
| HenManager.PowerActionMeaning | lib/henmanager.py:588-592 | exactly the eight valid actions make a call of __powerAction (lib/henmanager.py:699-710), and a soft action makes the call of the hard one |
| HenManager.TargetsMeaning | lib/henmanager.py:646-653 | for a hard action the targets are exactly the listed (power node, port) pairs whose power node exists |
| HenManager.Picks | lib/henmanager.py:685-693 | every message picked comes from a result of the kind picked |
| HenManager.MessagesJoin | lib/henmanager.py:685-693 | with non-empty messages each string the loop builds is the picked messages joined by ", " |
| HenManager.AggregateMeaning | lib/henmanager.py:694-697 | with non-empty messages the reply is -1 and the failures joined exactly when some target failed, and 0 and the successes joined otherwise |
| HenManager.PicksHasFailure | lib/henmanager.py:686-689 | a failed target puts a message in the failure string |
| HenManager.NoFailurePicks | lib/henmanager.py:686-689 | with no failed target the failure string stays empty |
| HenManager.BuildReply | lib/henmanager.py:683-697 | the two loops build exactly that reply |
| HenManager.PowerSilent | lib/henmanager.py:568-697 | an unknown action or the node "none" is refused; a port on a power node acts on it directly; an unknown node or one without targets is refused; otherwise every target is acted on and the results are aggregated |
| HenManager.CallPower | lib/henmanager.py:3631-3649 | the later definition of power is the one the class keeps, and it takes exactly three arguments |
| HenManager.TwoArgumentPowerFails | lib/henmanager.py:558-566 | a call of power with a node and an action, as the earlier definition expects, raises |
| HenParser.FilterUnique | lib/auxiliary/henparser.py:420-423 | the dictionary the status filter builds is determined by the dictionary and the status |
| HenParser.FilterIdempotent | lib/auxiliary/henparser.py:420-423 | filtering an already filtered dictionary by the same status changes nothing |
| HenParser.FilterByStatus | lib/auxiliary/henparser.py:420-425 | the loop keeps exactly the elements with the status, each under its own key |
| HenParser.UnknownType | lib/auxiliary/henparser.py:450-453 | an unknown type gives {} from getNodes and getLinks (henparser.py:598-601) and None from getInfrastructures and getFileNodes (henparser.py:501-502) |
| HenParser.GetElements | lib/auxiliary/henparser.py:404-601 | a stored type gives its elements, filtered by status unless it is "all"; "all" gives every type's dictionary, each filtered the same way; anything else the unknown-type answer |
| HenParser.GetExperimentEntries | lib/auxiliary/henparser.py:365-383 | status "all" gives every experiment entry and any other status exactly the entries with it |
| HenParser.LinesSnoc | lib/auxiliary/henparser.py:1919-1923 | one more entry appends its one line to the block |
| HenParser.MatchingMeaning | lib/auxiliary/henparser.py:1920 | an entry is written in a block exactly when it has the block's tag and type |
| HenParser.TypeLinesMatching | lib/auxiliary/henparser.py:1918-1933 | a block is the lines of the matching entries in the order of the list |
| HenParser.DroppedEntries | lib/auxiliary/henparser.py:1918-1933 | an entry reaches the file only as an infrastructure of a listed infrastructure type or a node of a listed node type, so link entries and others are dropped |
| HenParser.RenderSections | lib/auxiliary/henparser.py:1918-1933 | the nested loops build the sections of one tag, a blank line after each type |
| HenParser.WritePhysicalEntries | lib/auxiliary/henparser.py:1908-1948 | the text is the opening tag, the infrastructure and node sections and the closing tag, and the code is 0 or -1 when the file cannot be written |
| HenParser.NewEntry | lib/auxiliary/henparser.py:1853-1866 | the new entry keeps its tag and type, its file is the id's XML file under the physical directory, and a status outside the allowed ones becomes "operational" |
| HenParser.WritePhysicalEntry | lib/auxiliary/henparser.py:1845-1868 | the parsed entries, none when the file could not be parsed, and then the new one are written out |
| HenParser.KeptMeaning | lib/auxiliary/henparser.py:1879-1882 | exactly the entries whose file name lacks the id are kept, in order |
| HenParser.DeletePhysicalEntry | lib/auxiliary/henparser.py:1870-1884 | the kept entries are written out, and an unparsable file raises |
| HenParser.ChangePhysicalEntryStatus | lib/auxiliary/henparser.py:1886-1906 | a status outside the allowed ones gives -1 and writes nothing; otherwise every entry whose file name contains the id gets the status and the list is written out, and an unparsable file raises |
| PowerDaemon.DirectMapping | bin/daemons/powerdaemon.py:214-219 | a direct://switch:port name maps to exactly that switch and port when the switch has an instance, and to None otherwise |
| PowerDaemon.NamedMapping | bin/daemons/powerdaemon.py:220-224 | any other name maps to its configured list of ports, or to None when it has none |
| PowerDaemon.PortStatesMeaning | bin/daemons/powerdaemon.py:325-336 | the states collected are exactly those of the ports whose switch is known, one for each at most |
| PowerDaemon.GetPortStateBackend | bin/daemons/powerdaemon.py:317-340 | a mapped device gives the states of its ports with known switches, an unknown device None, and a direct name without a second ':' raises |
| PowerDaemon.CheckDevicePower | bin/daemons/powerdaemon.py:342-347 | 1 exactly when every reported state is the one asked for and 0 otherwise; iterating the None of an unmapped device raises |
| PowerDaemon.OnCheckMeaning | bin/daemons/powerdaemon.py:266-281 | the check before switching on passes exactly when every switch is known and below its current limit |
| PowerDaemon.CheckLimits | bin/daemons/powerdaemon.py:266-281 | the loop gives the first failure of that check |
| PowerDaemon.SetPortStateBackend | bin/daemons/powerdaemon.py:252-302 | an unmapped name gives 404 "not present"; switching on stops at the first unknown or overloaded switch; otherwise only the first port is acted on before the reply, and an empty port list gives no reply |
| PowerDaemon.FirstPortReply | bin/daemons/powerdaemon.py:291-302 | 200 exactly for on, off and restart; a port is switched on only when asked for on and it reports off, off only when asked for off and it reports on |
| PowerDaemon.KnownPairs | bin/daemons/powerdaemon.py:169-172 | a node's pair is kept exactly when its power switch is registered |
| PowerDaemon.PowerControl.constructor | bin/daemons/powerdaemon.py:32-57 | a new daemon has no switches, instances, mappings, enforced states or phases |
| PowerDaemon.PowerControl.BeginConfig | bin/daemons/powerdaemon.py:139-159 | the tables are emptied and exactly the power switches, the switches with "poe" set to "yes" and the service processors are registered; instances are only added |
| PowerDaemon.PowerControl.AddKnownPairs | bin/daemons/powerdaemon.py:169-177 | the loop over a node's power ports gives the mapping with the node's list extended, in order, by exactly its pairs on a registered power switch, a first pair starting the list |
| PowerDaemon.PowerControl.ConfigureNode | bin/daemons/powerdaemon.py:161-201 | a node without power nodes is skipped; otherwise its known pairs are appended to its mapping and its enforce_power_state recorded, "on" putting it in its phase (100 by default), and an unreadable phase stops the configuration |
| PowerDaemon.PowerControl.EnforcePowerState | bin/daemons/powerdaemon.py:180-194 | the node's enforce_power_state value is recorded whatever it is; "on" appends the node to the list of its phase (100 without one), creating it; a phase string.atoi cannot read stops with ok false and the phases unchanged; the port mapping is left alone |
| PowerDaemon.PowerControl.PhaseOrder | bin/daemons/powerdaemon.py:82-83 | the phase ids are exactly the configured phases, in strictly ascending order |
| PowerDaemon.PowerControl.CheckPowerState | bin/daemons/powerdaemon.py:69-95 | one pass makes the requests, and raises or not, exactly as PowerPass does over the phase ids in strictly ascending order: first the off loop, then, unless a check raised, one phase after another |
| PowerDaemon.PowerControl.CheckOff | bin/daemons/powerdaemon.py:72-80 | the off loop gives OffPass: skip devices configured on, stop at the first check that raises or says the device is not off |
| PowerDaemon.FirstOnIn | bin/daemons/powerdaemon.py:86-93 | the loop over one phase gives FirstOn: stop at the first check that raises or says the device is not on |
| PowerDaemon.OffPassMeaning | bin/daemons/powerdaemon.py:72-80 | at most one device is switched off, the first of the order not configured on whose check says it is not off, all before it being off; no request means every such device is off; a raise comes from the first unanswered check and requests nothing |
| PowerDaemon.FirstOnMeaning | bin/daemons/powerdaemon.py:86-93 | a phase requests at most one device, its first whose check says it is not on, all before it being on (the break); no request means all are on; a raise requests nothing |
| PowerDaemon.OnPassMeaning | bin/daemons/powerdaemon.py:82-95 | without a raise the phase loop requests, in the order of the phase ids, exactly each phase's own request, so every phase with a device not on gets one request |
| PowerDaemon.PhaseIdsUnique | bin/daemons/powerdaemon.py:82-83 | the ascending list of the configured phases is unique, so the walk order is determined |
| PowerDaemon.AddAll | bin/daemons/powerdaemon.py:145-148 | every id of the list is registered and nothing else is added |
| PowerDaemon.AddPoe | bin/daemons/powerdaemon.py:150-154 | exactly the switches whose "poe" attribute is "yes" are added |
| PowerDaemon.AppendedSnoc | bin/daemons/powerdaemon.py:174-177 | appending one more pair to a node's mapping creates the list or extends it by that pair |
| PowerDaemon.DistinctSorted | bin/daemons/powerdaemon.py:82-83 | sorting the distinct keys of the phases gives a strictly ascending list |
| InventoryCgi.ConvertParameterNames | gui/components/inventory/inventorycgi.py:19-49 | the new keys are exactly the renamed submitted keys, each holding the value of a key renamed to it |
| InventoryCgi.RenamePreservesValues | gui/components/inventory/inventorycgi.py:43-47 | when no two submitted names get the same new name, every value survives under its key's new name and no entry is lost |
| InventoryCgi.RenamedSize | gui/components/inventory/inventorycgi.py:43-47 | with distinct new names the renamed dictionary has as many entries as the submitted one |
| InventoryCgi.Kept | gui/components/inventory/inventorycgi.py:74-77 | the ids kept are exactly those containing the type string |
| InventoryCgi.Names | gui/components/inventory/inventorycgi.py:86-88 | each number gives the type followed by that number, in the same order |
| InventoryCgi.SortElementIDs | gui/components/inventory/inventorycgi.py:72-90 | no matching id raises, as does a suffix int() cannot read; otherwise the ids are rebuilt from the sorted numbers after the first digit of the first kept id |
| InventoryCgi.KeepMatching | gui/components/inventory/inventorycgi.py:74-77 | the filter loop keeps those ids in order |
| InventoryCgi.ParseSuffixes | gui/components/inventory/inventorycgi.py:81-83 | the int() loop reads every suffix or raises at the first unreadable one |
| InventoryCgi.TypedNames | gui/components/inventory/inventorycgi.py:86-88 | the loop rebuilds the ids from the numbers |
| InventoryCgi.FirstDigitUnique | gui/components/inventory/inventorycgi.py:79 | findFirstNumberInString has one answer per id |
| InventoryCgi.SuffixesStayNone | gui/components/inventory/inventorycgi.py:82-83 | once a suffix raises the loop gives no list |
| InventoryCgi.SortedNamesMeaning | gui/components/inventory/inventorycgi.py:85-90 | there is one id per kept id, each the type and one of the numbers, each number appearing, in ascending order of the numbers |
| InventoryCgi.NameInjective | gui/components/inventory/inventorycgi.py:88 | two numbers give the same id only when they are equal |
| InventoryCgi.StatusesByCategory | gui/components/inventory/inventorycgi.py:844-860 | a node type gets the node statuses, an infrastructure type the infrastructure statuses, a file node type the file statuses, and any other type none |
| InventoryCgi.ItemizeDescription | gui/components/inventory/inventorycgi.py:270-280 | the loop over the description gives the item list, or raises where the lookahead runs past the end |
| InventoryCgi.ItemsStayNone | gui/components/inventory/inventorycgi.py:273 | once the lookahead raises the whole loop raises |
| InventoryCgi.ItemsAsWritten | gui/components/inventory/inventorycgi.py:271-279 | as written "x" newline "y" stays one item, because ++counter leaves counter at 0, and with counter advancing it is two items |
| InventoryCgi.ItemsSplitLine | gui/components/inventory/inventorycgi.py:273-274 | with counter advancing, a line, a newline and another line give two items |
| InventoryCgi.ItemsPlain | gui/components/inventory/inventorycgi.py:277-278 | a stretch without newline or '-' is copied as it is |
| InventoryCgi.AssignedProcessors | gui/components/inventory/inventorycgi.py:906-909 | the service processors assigned are exactly those a computer names, "" and "none" naming none |
| InventoryCgi.Unlisted | gui/components/inventory/inventorycgi.py:911-913 | the ids kept are exactly those of the list that are not used |
| InventoryCgi.UnassignedProcessors | gui/components/inventory/inventorycgi.py:904-913 | the unassigned service processors are the listed ones no computer names |
| InventoryCgi.AssignedPowerPorts | gui/components/inventory/inventorycgi.py:917-922 | the ports in use on a power switch are exactly those of the nodes other than service processors that name it |
| InventoryCgi.AssignedSerialPorts | gui/components/inventory/inventorycgi.py:940-944 | the ports in use on a serial server are exactly those of the nodes that name it |
| InventoryCgi.UnassignedMeaning | gui/components/inventory/inventorycgi.py:927-929 | the free numbers of 1 to n are exactly those whose text is not used, in ascending order |
| InventoryCgi.FreeNumbers | gui/components/inventory/inventorycgi.py:927-929 | the loop over range(1, n + 1) keeps exactly those free numbers |
| InventoryCgi.UnassignedPowerPorts | gui/components/inventory/inventorycgi.py:915-929 | an unreadable port count raises; otherwise the ports 1 to the count no such node names, in ascending order |
| InventoryCgi.UnassignedSerialPorts | gui/components/inventory/inventorycgi.py:938-951 | an unreadable port count raises; otherwise the ports 1 to the count no node names for the serial server, in ascending order |
| InventoryCgi.UnitTextsMeaning | gui/components/inventory/inventorycgi.py:971-972 | the units a node takes are the texts of exactly the numbers from its start to its end unit |
| InventoryCgi.AppendUnits | gui/components/inventory/inventorycgi.py:971-972 | the inner loop appends those texts |
| InventoryCgi.AssignedUnitsMeaning | gui/components/inventory/inventorycgi.py:961-972 | a unit is assigned exactly when a node placed in the rack covers it |
| InventoryCgi.AssignedUnitsStayNone | gui/components/inventory/inventorycgi.py:971 | once a unit cannot be read the loop over the nodes raises |
| InventoryCgi.UnassignedRackUnits | gui/components/inventory/inventorycgi.py:960-978 | an unreadable unit or unit count raises; otherwise the units 1 to the count no node placed in the rack covers, in ascending order |
| InventoryJs.IsIPAddress | gui/components/inventory/inventory.js:3898-3910 | true exactly when the text splits on '.' into four parts and every part passes the octet test |
| InventoryJs.AllOctetsPass | gui/components/inventory/inventory.js:3904-3908 | the loop answers true exactly when every part passes, false at the first that fails |
| InventoryJs.CheckOctet | gui/components/inventory/inventory.js:3906 | one part passes exactly when isNaN does not hold (Number reads it, surrounding whitespace and all, as a number or an infinity) and parseInt does not read a number below 0 or above 255 |
| InventoryJs.PaddedOctetPasses | gui/components/inventory/inventory.js:3906 | a part with whitespace around its digits passes: isNaN(" 1 ") is false and parseInt(" 1 ") reads 1 |
| InventoryJs.ParseIntJsAgrees | gui/components/inventory/inventory.js:3906 | on numeric text parseInt reads the same number as the digits spell |
| InventoryJs.DottedQuadPasses | gui/components/inventory/inventory.js:3898-3910 | four numbers from 0 to 255 written in decimal and joined with '.' are accepted |
| InventoryJs.OutOfRangeFails | gui/components/inventory/inventory.js:3906-3907 | a part that reads as a number below 0 or above 255 makes the address fail |
| InventoryJs.EmptyOctetsPass | gui/components/inventory/inventory.js:3906 | isNaN of an empty part is false and parseInt of it is NaN, so "..." is accepted although it is no address |
| InventoryJs.InfinityOctetPasses | gui/components/inventory/inventory.js:3906 | a part that is "Infinity", signed or not, passes: isNaN is false, parseInt is NaN so neither comparison holds, and int() refuses it |
| InventoryJs.InfinityOctetsPass | gui/components/inventory/inventory.js:3898-3910 | "Infinity.Infinity.Infinity.Infinity" is accepted although it is no address |
| InventoryJs.RepeatedPartPasses | gui/components/inventory/inventory.js:3898-3910 | four copies of a part that passes and that int() refuses make a text that is accepted and is no address |
| InventoryJs.IntendedNeedsDecimal | gui/components/inventory/inventory.js:3898-3910 | the intended check accepts exactly the addresses the written one accepts whose four parts int() reads as decimal integers: no empty part, no "Infinity", no prefixed, fraction or exponent form |
| InventoryJs.OctetValid | gui/components/inventory/inventory.js:3906 | a part int() reads is a number from 0 to 255 exactly when it passes the written test |
| InventoryJs.MatchGroupsShape | gui/components/inventory/inventory.js:3887 | n repetitions of two class characters and ':' followed by two class characters are exactly the texts of length 3n+2 with ':' at every third position |
| InventoryJs.MACAddressShape | gui/components/inventory/inventory.js:3885-3891 | an address is accepted exactly when it has 17 characters, ':' at positions 2, 5, 8, 11 and 14 and a hex digit or a bar elsewhere |
| InventoryJs.MACAddressBar | gui/components/inventory/inventory.js:3887 | the character class also holds the bar character, so six pairs of bars joined by ':' are accepted where the hex pattern refuses them |
| InventoryJs.MACAddressHexAgrees | gui/components/inventory/inventory.js:3887 | the hex-only pattern accepts exactly the accepted addresses that hold no bar |
| InventoryJs.VerifyRackUnits | gui/components/inventory/inventory.js:3781-3799 | false when the start unit is above the end unit or some unit from the start up to but not including the end is not an option of the select box, otherwise true |
| InventoryJs.RackEndUnitUnchecked | gui/components/inventory/inventory.js:3792-3797 | the end unit itself is never looked up: units 1 to 2 pass with only unit 1 free, and the inclusive check refuses them |
| InventoryJs.InclusiveChecksEndUnit | gui/components/inventory/inventory.js:3792-3797 | the inclusive check accepts a range exactly when the written one does and, for a range that is not reversed, the end unit is free as well |
| InventoryJs.UnitText | gui/components/inventory/inventory.js:3793 | parseInt reads back the text String(i) of a unit number |
| InventoryJs.RackStepNeverRejects | gui/components/inventory/inventory.js:3385-3400 | the test !verifyRackUnits looks at the function, not its result, so it never rejects a form, while calling it would reject the range 5 to 3 |
| InventoryJs.CheckAndRetrieveAttributes | gui/components/inventory/inventory.js:3826-3857 | null exactly when the line-by-line parse of every line but the last is refused, otherwise the names and values that parse gathered |
| InventoryJs.MatchesInput | gui/components/inventory/inventory.js:3843-3848 | true exactly when some input name equals the attribute name ignoring case |
| InventoryJs.ParseStops | gui/components/inventory/inventory.js:3839 | once the parse has returned or thrown, later lines change nothing |
| InventoryJs.ParseNullMeaning | gui/components/inventory/inventory.js:3833-3852 | with the form's fields known nothing throws, and the result is null exactly when some line's name has a space or equals an input name |
| InventoryJs.ParseKeysMeaning | gui/components/inventory/inventory.js:3835-3851 | a parse that is not refused holds exactly the names of the lines read |
| InventoryJs.ParseValuesMeaning | gui/components/inventory/inventory.js:3850-3851 | each name holds the value of the last line read with that name |
| InventoryJs.ParseWithoutFields | gui/components/inventory/inventory.js:3842-3854 | for an element type without form fields the first line ends the parse: null when its name has a space, otherwise the exception is caught and no attribute is kept |
| InventoryJs.RetrieveInputValues | gui/components/inventory/inventory.js:3866-3878 | the keys are exactly the input names, each holding its input's value with "please select..." and "" read as "none" |
| InventoryJs.AreValuesSelected | gui/components/inventory/inventory.js:3932-3945 | true exactly when no box holds "please select...", "please wait..." or "other..." |
| InventoryJs.InventoryPage.constructor | gui/components/inventory/inventory.js:637 | a page starts with the given number of outstanding requests and the given mode |
| InventoryJs.InventoryPage.CountOutstandingReplies | gui/components/inventory/inventory.js:3997-4016 | one outstanding request fewer; at zero in edit mode the element is fetched, at zero otherwise the controls are enabled, else the page waits |
| InventoryJs.CountAll | gui/components/inventory/inventory.js:3997-4016 | n replies to n requests give n steps of which only the last moves on, to the edit fetch in edit mode and to the controls otherwise |
| InventoryJs.IsMACAddress | gui/components/inventory/inventory.js:3885-3891 | the definition of isMACAddress: the text matches five groups of two class characters and ':' followed by two class characters, anchored at both ends |
| InventoryJs.RackUnitsOk | gui/components/inventory/inventory.js:3781-3799 | what verifyRackUnits accepts: with both units read by parseInt, the start is not above the end and every unit from the start up to the end (excluded as written, included as intended) is an option of the start-unit box; NaN on either side passes |
| InventoryJs.FormPasses | gui/components/inventory/inventory.js:3385-3400 | a form passes when the checks before the rack step pass and, only if verifyRackUnits is really called, the rack range passes too |
| Canvas.GetSubnetFromCIDR | gui/components/experiment/canvas.js:341-364 | for a network whose Number is not an infinity, the subnet is the decimal values of the 8-bit pieces of the mask bit string, joined with '.' |
| Canvas.JoinPieces | gui/components/experiment/canvas.js:356-362 | the third loop and the substring after it: the decimal values of the 8-bit pieces of the bit string, the last piece possibly shorter, joined with '.' |
| Canvas.OnesThenZeros | gui/components/experiment/canvas.js:343-354 | the first two loops, comparing i with Number(network) and with 32 - network, build LoopCount ones followed by LoopCount zeros: nothing for NaN or a count not above 0, the count rounded up otherwise |
| Canvas.MaskBitsOfInt | gui/components/experiment/canvas.js:343-354 | for a whole prefix length n the bit string is n ones then 32 - n zeros, each count taken as none when negative |
| Canvas.MaskTextsOfPrefix | gui/components/experiment/canvas.js:341-364 | a prefix length written in decimal gives the texts of that whole prefix length |
| Canvas.TerminatedJoin | gui/components/experiment/canvas.js:360-362 | dropping the last character of the texts each followed by '.' leaves them joined with '.' |
| Canvas.PrefixBits | gui/components/experiment/canvas.js:345-354 | for a prefix length 0 to 32 the bit string has 32 bits and bit i is a one exactly when i is below the prefix length |
| Canvas.MaskChunk | gui/components/experiment/canvas.js:358 | piece k of a prefix mask is some ones followed by zeros, eight bits in all |
| Canvas.MaskOctetValue | gui/components/experiment/canvas.js:359 | parseInt(octet, 2) of piece k is 256 - 2^(8 - m) for the m prefix bits in the piece, one of 0, 128, 192, 224, 240, 248, 252, 254 and 255 |
| Canvas.SubnetOctets | gui/components/experiment/canvas.js:341-364 | for a prefix length 0 to 32 the subnet has four octet texts and text k is the decimal of the mask value of piece k |
| Canvas.SubnetSplits | gui/components/experiment/canvas.js:341-364 | the subnet of a prefix length 0 to 32 splits at '.' back into exactly those four texts |
| Canvas.NotANumberSubnet | gui/components/experiment/canvas.js:345-362 | text whose Number is NaN gives the empty subnet |
| Canvas.LastComputer | gui/components/experiment/canvas.js:387-395 | the loop keeps the values of the last child of type "computer", and there is none exactly when no child has that type |
| Canvas.InsideBoxMeaning | gui/components/experiment/canvas.js:397-400 | for a circle of non-negative radius the four comparisons hold exactly when its bounding box lies strictly inside the node circle's box |
| Canvas.IsWithinBounds | gui/components/experiment/canvas.js:377-407 | true exactly when the interface's and the last computer circle's cx, cy and r all parse and the four comparisons hold |
| Canvas.LastComputerCoordinates | gui/components/experiment/canvas.js:387-395 | the loop leaves the parseInt values of the last "computer" child's cx, cy and r, all undefined when there is none |
| Canvas.ReadCoordinates | gui/components/experiment/canvas.js:379-381 | the three parseInt calls; all three read a number exactly when the circle parses, and then they are its centre and radius |
| Canvas.NoComputerOutOfBounds | gui/components/experiment/canvas.js:382-400 | without a computer circle the node's values stay undefined and every comparison is false |
| Canvas.AddedEdgeIdList | gui/components/experiment/canvas.js:795-815 | after an edge id without spaces is added, the edgeId attribute splits at ' ' into the old ids followed by the new one |
| Canvas.SvgCanvas.constructor | gui/components/experiment/canvas.js:55 | a new canvas has no circles, attributes or lines and its counter at 0 |
| Canvas.SvgCanvas.ValidateNodeId | gui/components/experiment/canvas.js:881-893 | true exactly when no circle has the id |
| Canvas.SvgCanvas.ValidateNodeExistence | gui/components/experiment/canvas.js:896-908 | true exactly when some circle has the id |
| Canvas.SvgCanvas.DoCreateEdge | gui/components/experiment/canvas.js:712-823 | the first failing check in source order is reported; the counter moves on once the name is given; a refused edge changes no attribute or line; a drawn one appends its line with id name plus counter and adds that id and the VLAN name to both interfaces |
| Canvas.Lookup | gui/components/experiment/canvas.js:795-797 | a present attribute reads as its value and a missing one as null |
| Calendar.DayOf | gui/components/experiment/calendar.js:524-526 | the calendar day of a date keeps its day, month and year and drops its time |
| Calendar.AreDatesEqualMeaning | gui/components/experiment/calendar.js:531-538 | two dates are equal exactly when they fall on the same calendar day, whatever their times |
| Calendar.LessOrEqualCases | gui/components/experiment/calendar.js:546-561 | less or equal holds exactly when the dates are equal or the first has a smaller year, a smaller month or a smaller day, each tested alone |
| Calendar.BeforeDateMeaning | gui/components/experiment/calendar.js:588-603 | no date is before itself, and a date is before another exactly when they differ and none of its year, month and day is larger |
| Calendar.OnOrBeforeOrder | gui/components/experiment/calendar.js:540-545 | the order of calendar days the comparisons describe, by year then month then day, is reflexive, antisymmetric on days, transitive and total |
| Calendar.StrictlyBeforeMeaning | gui/components/experiment/calendar.js:582-587 | the intended strict order holds exactly when the other date is not on or before the first |
| Calendar.WrittenImpliesIntended | gui/components/experiment/calendar.js:569-603 | whatever isDateBeforeDate accepts is strictly before in the intended order, and whatever isDateInRange accepts lies in the range in that order |
| Calendar.LessOrEqualAcrossYears | gui/components/experiment/calendar.js:554-558 | as written 1 January 2024 compares less or equal to 31 December 2023, because the month is compared alone |
| Calendar.InRangeAcrossYears | gui/components/experiment/calendar.js:572-577 | as written 28 December 2023 is not in the range 25 December 2023 to 5 January 2024, though it is in the intended order |
| Calendar.BeforeAcrossYears | gui/components/experiment/calendar.js:596-600 | as written 31 December 2023 is not before 1 January 2024, though it is in the intended order |
| Calendar.Flatten | gui/components/experiment/calendar.js:93-95 | an id is among the experiments' node ids exactly when some experiment lists it |
| Calendar.Chars | gui/components/experiment/calendar.js:76-77 | indexing a string yields its characters as one-character strings |
| Calendar.IsInArray | gui/components/experiment/calendar.js:74-80 | true exactly when the item is in the array |
| Calendar.CollectNodeIDs | gui/components/experiment/calendar.js:93-99 | the loops over the experiments push each node id unless the test before the push finds it, with the arguments swapped as written or in order as intended |
| Calendar.PushNodeIDs | gui/components/experiment/calendar.js:96-98 | the inner loop pushes one experiment's ids the same way |
| Calendar.CollectedAppend | gui/components/experiment/calendar.js:93-99 | pushing the ids of two experiments is pushing the first's, then the second's |
| Calendar.CollectedDistinct | gui/components/experiment/calendar.js:97-98 | with the arguments in order the list holds each id once, and exactly the ids seen |
| Calendar.DuplicateNodeIDs | gui/components/experiment/calendar.js:97 | as written the id "computer1" of two experiments is pushed twice, where the intended test pushes it once |
| Calendar.CalendarView.constructor | gui/components/experiment/calendar.js:59-63 | the palette starts with "#ccc" for unallocated, blue for user, green for shared and yellow for other |
| Calendar.CalendarView.SetAllocatedColor | gui/components/experiment/calendar.js:67-72 | only the four allocation types take the new colour; any other type leaves the palette as it was |
| Calendar.CalendarView.SetCellColorByRowCol | gui/components/experiment/calendar.js:502-511 | a missing cell throws and changes nothing; otherwise the cell is marked "no" exactly when the colour is the unallocated colour, else "yes", and takes the colour |
| Calendar.AllocatedMark | gui/components/experiment/calendar.js:505-508 | the mark is "no" exactly when the colour is the palette's unallocated colour, and "yes" otherwise |
| Calendar.PaletteKeepsTypes | gui/components/experiment/calendar.js:67-72 | setAllocatedColor keeps the four allocation types in the palette and adds no key |
| Calendar.AreDatesEqual | gui/components/experiment/calendar.js:531-538 | the definition of areDatesEqual: day of the month, month and full year all agree; the time of day plays no part |
| Calendar.IsDateLessOrEqual | gui/components/experiment/calendar.js:546-560 | the definition of isDateLessOrEqual with its early returns: true for equal dates, else true as soon as the year, then the month, then the day of the first date is smaller |
| Calendar.IsDateInRange | gui/components/experiment/calendar.js:569-580 | the definition of isDateInRange: day, month and year each lie between the start's and the end's, ends included, component by component |
| Calendar.IsDateBeforeDate | gui/components/experiment/calendar.js:588-602 | the definition of isDateBeforeDate with its early returns: false for equal dates or a larger year or month, else true unless the day is larger |
| HenJs.GetAttributeValue | gui/auxiliary/hen.js:395-404 | null when there is no tag or it lacks the attribute, otherwise the attribute's value, an empty one included |
| HenJs.AttributeRoundTrip | gui/auxiliary/hen.js:395-404 | an attribute set on a tag reads back as its value and the other attributes read as before |
| HenJs.FirstDigit | gui/auxiliary/hen.js:418-424 | the loop stops at the first decimal digit, or at the end when there is none |
| HenJs.FirstDigitIsFirst | gui/auxiliary/hen.js:418-424 | an index with no digit before it and a digit or the end at it is where the loop stops |
| HenJs.TrimLabel | gui/auxiliary/hen.js:412-429 | a label that fits is returned unchanged; a longer one keeps a prefix of its element name followed by the whole number, cut to the requested length unless the number alone is longer |
| HenJs.IsManager | gui/auxiliary/hen.js:161-167 | true exactly when "henmanager" is among the user's groups |
| HenJs.NumberOf | gui/auxiliary/hen.js:139-146 | Number(null) is 0, never null; text is NaN or an infinity exactly when Number reads it so, and text int() reads is that integer |
| HenJs.MakeNode | gui/auxiliary/hen.js:133-148 | the node keeps its id, type and position; the start unit is null when absent, and the end unit is Number(endUnit) whatever its null test decided |
| HenJs.NullEndUnitIsZero | gui/auxiliary/hen.js:141-146 | as written a node built without an end unit has end unit 0, never null |
| HenJs.IntendedNode | gui/auxiliary/hen.js:137-144 | with the second assignment dropped, a unit is null exactly when it is absent |
| HenJs.IntendedAgreesWhenEndGiven | gui/auxiliary/hen.js:141-146 | the written and the intended constructor agree on every node that has an end unit |
| HenJs.Restored | gui/auxiliary/hen.js:86-87 | a show gives each div its saved visibility back, and a div with no saved entry keeps its own |
| HenJs.AllHidden | gui/auxiliary/hen.js:79-80 | a hide sets every registered div to "hidden" |
| HenJs.InitRunsOnce | gui/auxiliary/hen.js:59-67 | from a new tab initTab runs exactly once per run of calls, and the tab is still unshown exactly when no call asked for "visible" |
| HenJs.HideThenShowRestores | gui/auxiliary/hen.js:71-89 | hiding a shown tab and then showing it restores every div's visibility and empties what was saved |
| HenJs.HideIdempotent | gui/auxiliary/hen.js:72-82 | a second hide changes nothing, because the visibilities saved first are kept |
| HenJs.Tab.constructor | gui/auxiliary/hen.js:23-38 | a new tab is still to be shown and has no div and nothing saved |
| HenJs.Tab.AddVisibilityDiv | gui/auxiliary/hen.js:31-32 | registering a div appends its visibility and leaves the rest of the tab as it was |
| HenJs.Tab.SetVisibility | gui/auxiliary/hen.js:59-90 | the tab after a call is one step of setVisibility from the tab before it |
| HenJs.SetVisibilityStep | gui/auxiliary/hen.js:59-90 | one setVisibility call: the first show runs initTab; a hide saves the divs' visibilities unless some are saved and hides them; any other call but the show that ran initTab restores the saved ones and forgets them |
| RackLayout.CoversNumbered | gui/components/physicallocation/physicallocation.js:639-640 | a node with finite numeric units occupies a slot in a view exactly when the slot lies between its start and end units and its position names the view or is "both" |
| RackLayout.NaNCoversNothing | gui/components/physicallocation/physicallocation.js:639 | a node whose start or end unit is NaN occupies no slot, nor one with a null end unit any slot from 1 up |
| RackLayout.SlotEmpty | gui/components/physicallocation/physicallocation.js:635-644 | true exactly when no node of the rack occupies the slot in the view |
| RackLayout.VerticalSlotEmpty | gui/components/physicallocation/physicallocation.js:648-655 | true exactly when no node's position contains the slot name |
| RackLayout.VerticalUnitXPos | gui/components/physicallocation/physicallocation.js:659-669 | a position is given exactly for the four vertical rear slots, and undefined for any other slot name |
| RackLayout.RearLayoutTiles | gui/components/physicallocation/physicallocation.js:659-669 | the two left slots, the horizontal units rearRackWidth wide and the two right slots follow one another without gap or overlap |
| RackLayout.MaxRackUnits | gui/components/physicallocation/physicallocation.js:175-180 | the result is at least -1, no rack is taller, and it is -1 or some rack's height |
| RackLayout.RackRowSpan | gui/components/physicallocation/physicallocation.js:230-239 | for two numeric units the highest and lowest rows are the two units, highest first, and the height counts the rows between them inclusive; a NaN unit leaves the height NaN |
| RackLayout.AtPosition | gui/components/physicallocation/physicallocation.js:513-514 | the racks found for a position are exactly those at that position, in index order |
| RackLayout.FrontRackOrder | gui/components/physicallocation/physicallocation.js:510-526 | the loops draw, position by position from 1 to the number of racks, the racks at that position |
| RackLayout.RacksAt | gui/components/physicallocation/physicallocation.js:513-525 | the inner loop picks the racks at one position |
| RackLayout.FrontOrderAscending | gui/components/physicallocation/physicallocation.js:510-526 | the racks are drawn in ascending position order, each at most once, and a rack is drawn exactly when its position is between 1 and the number of racks |
| RackLayout.ToggleAll | gui/auxiliary/draw.js:439-450 | each visible element, or one with no visibility set, is hidden and every other element is shown |
| RackLayout.FirstViewsShowFront | gui/components/physicallocation/physicallocation.js:104-106 | a tab starts showing the front of every rack with the rear not drawn |
| RackLayout.ToggleViewsKeepsShowing | gui/components/physicallocation/physicallocation.js:673-699 | a view switch alternates front and rear, draws the rear only once, and leaves exactly the current side's racks visible |
| RackLayout.ToggleViewsStep | gui/components/physicallocation/physicallocation.js:673-699 | one toggleViews call: the current racks are hidden, then the other side is shown, the rear being drawn (and so shown) the first time instead of toggled |
| PhysicalLocation.PhysicalLocationTab.constructor | gui/components/physicallocation/physicallocation.js:99-106 | a new tab has no racks and shows the front view with the rear not drawn |
| PhysicalLocation.PhysicalLocationTab.LoadRacks | gui/components/physicallocation/physicallocation.js:132-180 | the reply's racks are appended, each gets a front and a rear div, and the tallest height found is at least -1, no rack is taller, and it is -1 or some rack's height |
| PhysicalLocation.PhysicalLocationTab.IsSlotEmpty | gui/components/physicallocation/physicallocation.js:635-644 | true exactly when no node of the rack occupies the slot in the current view |
| PhysicalLocation.PhysicalLocationTab.ToggleRacks | gui/components/physicallocation/physicallocation.js:703-710 | every rack's div on the current side changes visibility and nothing else changes |
| PhysicalLocation.PhysicalLocationTab.DrawRearRacks | gui/components/physicallocation/physicallocation.js:340-366 | the rear is marked drawn and the racks and visibilities are kept |
| PhysicalLocation.PhysicalLocationTab.ToggleViews | gui/components/physicallocation/physicallocation.js:673-699 | hides the side shown and shows the other, drawing the rear the first time it is shown |
| Status.NodeStatusColor | gui/components/status/status.js:521-537 | a node is green exactly when its status reads 1, maroon exactly when it reads 0, and light grey otherwise |
| Status.OverallStatusColor | gui/components/status/status.js:567-583 | the background is light blue, orange or red exactly when the overall status reads 0, 1 or 2, and white otherwise |
| Status.PaleNormalNeverAssigned | gui/components/status/status.js:577-582 | the light cyan test sits after the background is set to white, so no node is ever light cyan and an offline node in a normal state stays light blue |
| Status.IntendedStatusColor | gui/components/status/status.js:579-581 | the evidently intended colouring makes a node light cyan exactly when its overall status reads 0 and it is offline, and otherwise agrees with the written one |
| Status.StatusTab.constructor | gui/components/status/status.js:128-137 | a new tab has no racks, no tallest height yet, no status request sent, and shows the front with the rear not drawn |
| Status.StatusTab.LoadTempRacks | gui/components/status/status.js:366-378 | the reply's racks are appended, each gets a front and a rear div, and the tallest height found is at least -1, no rack is taller, and it is -1 or some rack's height |
| Status.StatusTab.IsTempSlotEmpty | gui/components/status/status.js:1011-1020 | true exactly when no node of the rack occupies the slot in the view the tab shows |
| Status.StatusTab.ToggleTempRacks | gui/components/status/status.js:1080-1086 | every rack's div on the current side changes visibility and nothing else changes |
| Status.StatusTab.DrawTempRearRacks | gui/components/status/status.js:625-652 | the rear is marked drawn and the racks and visibilities are kept |
| Status.StatusTab.NodeStatusRequest | gui/components/status/status.js:504-510 | one more status request is sent and nothing else changes |
| Status.StatusTab.ToggleTempViews | gui/components/status/status.js:1048-1075 | hides the side shown and shows the other; the first switch to the rear draws it and sends one status request |

## Left out

- Serial device I/O is not modelled: opening, reading and writing the tty, `select`, `fcntl` and `os.write`. The `fcntl` result and the octets read are inputs.
- `readMsg`'s thread and the `listen` loop are not modelled, because they only move `readPkt`'s results between threads.
- The C-header parsing of `serial.py` (`__parseHeaderFile`, `__parseEnum`, `__parseStruct`) is not modelled, because it is regular-expression matching into `struct` formats.
- The message descriptors and the logger of `serial.py` are not modelled. The one logger call that matters, the debug line of `writeMsg`, is modelled by the exception it raises (`SerialFrame.ArrayMessagesRaise`).
- The SNMP and telnet sessions of the switch drivers are not modelled: their replies are inputs. `extreme.py` and `threecom.py` are left out entirely, because they are only SNMP plumbing.
- The serving and scheduling daemons are left out, because their logic is sockets, threads and calls into hardware objects. These are the monitor, switch monitor, system, computer, autodetect, emergency, mote computer, authentication, control and new power daemons, and the switchd and monitord worker threads.
- `monitord/monitordb.py` is left out, because it is floating-point trend analysis and file rotation.
- The file and shell generators are left out: `dns.py`, `confignetboot.py`, `processlshw.py`, `experimentcontrol.py`, `filecgi.py` and `iperfcontrol.py`.
- XML parsing with minidom in `henparser.py` and `inventorycgi.py` is not modelled: the parsed tables are inputs. `writeNodePhysicalFile` is left out because it is file output, and it also uses a name, `filename`, that it never defines.
- `__writePhysicalEntries` (`HenParser`) is modelled as the text of the entries it writes, on already parsed entries; the minidom document it builds and the file it writes are not modelled.
- RemoveNotifications: the notifications file is an input to each operation, what its first re-read gives (None when missing or unreadable). The write back is taken to succeed, so a later re-read in the same operation reads the table written. A failed write, whose result the source ignores, and the expiry notifier writing the file between two re-reads of one operation are not modelled. A file without a root `notifications` tag makes the parser raise IndexError, which is not modelled either.
- Disk writes, e-mail, the power-off of released devices and the directory listings of the reservation daemon are not modelled. Each write or mail is an input saying whether it succeeded, and the listings are dropped.
- `Reservation`: reservation ids are integers. The source reads them from the database file as strings, `release` compares them as strings and `renew` and `update` convert them with `int`, which agrees for ids written in canonical decimal.
- Python dictionary iteration order is not modelled. The order of the macs and switches in `findUniqueMACs` is an input. The loops of the reservation daemon over the users take them in any order: `cleanExpired` and `__findHighestID` give the same result whatever it is, and `__getOwner` is stated to give some user holding the device.
- CapRightsMeaning: models the intended reading of maxweeks as a number. As written, maxweeks is the string read from the rights file, and Python 2 never orders a string below an int, so no right lowers the limit (`MaxWeeksAsWritten`). The `None` for a non-numeric maxweeks stands for the ValueError `int()` would raise in that reading; the code as written raises nothing there.
- CapRightsSome: the same intended numeric reading of maxweeks as `CapRightsMeaning`.
- CapRightsBound: the same intended numeric reading of maxweeks as `CapRightsMeaning`.
- CapRightsAttained: the same intended numeric reading of maxweeks as `CapRightsMeaning`.
- GetMaxWeeks: computes the intended numeric limit, not the as-written 99999 for a covered device list (`MaxWeeksAsWritten`); its `None` for a non-numeric maxweeks has no counterpart in the code as written.
- RenewCleaned: clamps the end day with the intended numeric limit of `GetMaxWeeks`, where the code as written clamps with `MaxWeeksAsWritten` (a two-week right gives 99999 weeks, not 2); its `Raised(ValueError)` outcome does not arise as written.
- ReserveCleaned: clamps the end day with the intended numeric limit, as `RenewCleaned` does, where the code as written gives 99999 weeks to a covered device list; its `Raised(ValueError)` outcome does not arise as written.
- Renew: cleans with the intended `CleanExpired`, which releases every expired reservation. As written, `cleanExpired` releases from the list it iterates, so of two expired reservations in a row the second survives the pass (`CleanListAsWrittenSkips`) and keeps its devices in use.
- Reserve: cleans with the intended `CleanExpired`, as `Renew` does; as written a skipped expired reservation keeps its devices and can refuse the reservation.
- Update: cleans with the intended `CleanExpired`, as `Renew` does, and runs the intended `UpdateCleaned`, whose failed write restores the old devices where the code as written assigns the end date (`UpdateRollbackAsWritten`).
- StartDB: cleans with the intended `CleanExpired`, as `Renew` does.
- `drawCalendar` sorts `allNodeIDs` (`calendar.js:102`) before drawing one row per id. The sort only orders the rows drawn, which are DOM output, so it is not modelled: `Calendar.CollectNodeIDs` gives the list before sorting.
- Locks and sleeps are not modelled.
- `CheckPowerState`: the requests it makes are its result. The replies of `setPortStateBackend` are ignored, as the source ignores them. The second `checkDevicePower` call in each log line is taken to answer as the first did, because `check` is a function of the device and the state.
- Wall-clock time is not modelled: "today" and "now" are parameters.
- DOM construction, `XMLHttpRequest`, event wiring and `alert` are not modelled in the GUI scripts, and neither are the `draw*` functions and `initTab`'s contents. `draw.js`, `experiment.js` and `power.js` are left out except `toggle` in `draw.js`, which `RackLayout.ToggleAll` models.
- The reply handlers of the GUI tabs are modelled only by the fields they set. The node and rack lists they read from XML are inputs.
- The pixel x positions of the front racks, and the reversed order the rear racks are drawn in, are not modelled. The model keeps which racks are drawn and in what order.
- How `drawRearRacks` and `drawTempRearRacks` push the rear divs onto `visibilityDivs` is not modelled. The model keeps one visibility per rack and side.
- `JsCommon` models `parseInt` with no radix and `Number` on any text, with the whitespace they skip limited to space, tab, line feed, vertical tab, form feed and carriage return; other Unicode white space is not skipped. Numbers are exact reals: the rounding of IEEE doubles is not modelled, so a decimal literal too large for a double ("1e400") is finite here where JavaScript gives Infinity, and a fraction keeps digits a double would round away.
- GetSubnetFromCIDR: requires that Number of the network is not an infinity. For "Infinity" the first loop of `getSubnetFromCIDR`, and for "-Infinity" the second, never ends, so the source returns nothing for them and the model does not cover them.
- `Status`: the status callbacks' updates of `NODES_WITH_SENSORS` and the sensor tables are not modelled. Only the colour of each node's text and background is.
- `Canvas.SvgCanvas.DoCreateEdge` models the checks and the edge ids. The SVG line it draws and the attribute dialog are not modelled.

## Findings

| source | as written | input that shows it | evidently intended | confidence | as-written member | corrected member |
|---|---|---|---|---|---|---|
| lib/hardware/switches/switch.py:49 | inv_mask holds 254 for slot 6 and 255 for slot 7 | disabling port 7 of an all-ones octet clears port 8 and keeps port 7; disabling port 8 clears nothing | inv_mask[i] is 255 - mask[i], which clears exactly the port's bit | not executed | PortList.DisableSlotsSixSeven | PortList.DisableClearsOnlyPort |
| lib/auxiliary/hen.py:5025-5029 | isHigherIPAddress returns True at the first larger section and never stops at a smaller one | 1.9.0.0 against 2.0.0.0, in both directions | return False at the first smaller section, which is the order of the 32-bit values | not executed | HenFunctions.HigherAsWrittenBothWays | HenFunctions.IsHigherIPIsValueOrder |
| lib/auxiliary/hen.py:4981-4984 | isDateAfter is False as soon as any one of year, month or day is smaller | 01/03/2020 against 15/02/2020; and datesOverlap of 1-5 March and 10-15 February 2020 | compare year, then month, then day | not executed | HenFunctions.DatesOverlapAsWrittenWrong | HenFunctions.DateAfterStrictTotal |
| lib/auxiliary/hen.py:5100 | convertIntToHexCharacter converts an undefined name i | any integer from 0 to 15 raises NameError | convert the argument integer | not executed | HenFunctions.IntToHexCharacterAsWrittenFails | HenFunctions.HexCharacterRoundTrip |
| lib/auxiliary/hen.py:4010 | VLAN's default vlanSwitches dictionary is one object shared by every VLAN built without one | a port added to one such vlan shows up in another | each VLAN gets its own dictionary | not executed | HenVlan.DefaultSwitchesShared | HenVlan.OwnSwitchesSeparate |
| lib/auxiliary/hen.py:4133-4134 | deletePorts finds the port by number but removes it by full equality | deleting Port(1, tagged) from a list holding Port(1, untagged) raises ValueError | remove the listed port with that number | not executed | HenVlan.DeleteOtherTagRaises | HenVlan.RemoveNumbersMeaning |
| bin/daemons/reservationdaemon.py:793 | maxweeks read from the rights file is a string, which Python 2 never orders below an int | a right of two weeks on the one requested device gives 99999 weeks | compare maxweeks as a number | not executed | Reservation.MaxWeeksAsWrittenIgnoresRights | Reservation.MaxWeeksCovered |
| bin/daemons/reservationdaemon.py:567-570 | releaseDevices removes devices from the list it is iterating | releasing both devices of a two-device reservation releases only the first | visit every device | not executed | Reservation.IterRemoveAsWrittenSkips | Reservation.ReleaseDevicesMeaning |
| bin/daemons/reservationdaemon.py:733-735 | cleanExpired releases reservations from the list it is iterating | of two expired reservations in a row, the second survives | release every expired reservation | not executed | Reservation.CleanListAsWrittenSkips | Reservation.SplitTable |
| bin/daemons/reservationdaemon.py:636 | update saves getEndDate() as the devices to restore | for every reservation the saved device list is its end date, so a failed write never brings the old devices back | save a copy of getDevices() (list(userReservation.getDevices())) and restore it | not executed | Reservation.UpdateRollbackAsWrittenLosesDevices | Reservation.ReservationDB.UpdateCleaned |
| lib/henmanager.py:3631 | a second definition of power replaces the one at line 558 | power(nodeid, action) raises, because the kept definition takes three arguments | a call with node and action reaches powerSilent | not executed | HenManager.TwoArgumentPowerFails | HenManager.PowerSilent |
| gui/components/inventory/inventorycgi.py:279 | ++counter is two unary pluses in Python, so counter stays 0 | the description x, newline, y stays one item | counter advances with the letter | not executed | InventoryCgi.ItemsAsWritten | InventoryCgi.ItemsSplitLine |
| gui/components/inventory/inventory.js:3397 | the form test is !verifyRackUnits, the function itself, not a call | units 5 to 3 pass the form | call verifyRackUnits with the units | not executed | InventoryJs.RackStepNeverRejects | InventoryJs.VerifyRackUnits |
| gui/components/inventory/inventory.js:3792 | the unit loop stops before the end unit | units 1 to 2 pass with only unit 1 free | check the end unit as well | not executed | InventoryJs.RackEndUnitUnchecked | InventoryJs.InclusiveChecksEndUnit |
| gui/components/inventory/inventory.js:3906 | isNaN of an empty part is false and comparisons with NaN are false | the text of three dots passes isIPAddress | refuse an empty part | not executed | InventoryJs.EmptyOctetsPass | InventoryJs.IntendedNeedsDecimal |
| gui/components/inventory/inventory.js:3906 | isNaN of "Infinity" is false and parseInt of it is NaN, which no comparison rejects | "Infinity.Infinity.Infinity.Infinity" passes isIPAddress | refuse a part parseInt cannot read | not executed | InventoryJs.InfinityOctetsPass | InventoryJs.IntendedNeedsDecimal |
| gui/components/inventory/inventory.js:3887 | the character class holds the bar character between its ranges | six pairs of bar characters joined by colons pass isMACAddress | hexadecimal digits only | not executed | InventoryJs.MACAddressBar | InventoryJs.MACAddressHexAgrees |
| gui/components/experiment/calendar.js:554-558 | isDateLessOrEqual returns true when the month alone, or the day alone, is smaller | 1 January 2024 is less or equal to 31 December 2023 | compare year, then month, then day | not executed | Calendar.LessOrEqualAcrossYears | Calendar.OnOrBeforeOrder |
| gui/components/experiment/calendar.js:569-603 | isDateInRange and isDateBeforeDate compare day, month and year each on its own | 28 December 2023 is not in the range 25 December 2023 to 5 January 2024; 31 December 2023 is not before 1 January 2024 | compare whole dates in calendar order | not executed | Calendar.InRangeAcrossYears | Calendar.WrittenImpliesIntended |
| gui/components/experiment/calendar.js:97 | isInArray is called with the list and the id swapped | the id computer1 of two experiments is pushed twice | push each id once | not executed | Calendar.DuplicateNodeIDs | Calendar.CollectedDistinct |
| gui/auxiliary/hen.js:146 | the Node constructor sets endUnit to Number(endUnit) again after the null test | a node built without an end unit has end unit 0 | keep null for a missing end unit | not executed | HenJs.NullEndUnitIsZero | HenJs.IntendedNode |
| gui/components/status/status.js:579-582 | the light cyan test sits in the default branch, after the background is set to white | an offline node whose overall status is 0 stays light blue | an offline node in a normal state is light cyan | not executed | Status.PaleNormalNeverAssigned | Status.IntendedStatusColor |
| lib/auxiliary/serial.py:395 | writeMsg's debug line applies ord to every element of the message | any non-empty array or list of ints raises TypeError before it is written | frame array and int-list messages | not executed | SerialFrame.ArrayMessagesRaise | SerialFrame.ArrayMessagesFramed |
