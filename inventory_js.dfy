// The input checks of the inventory page (gui/components/inventory/inventory.js):
// the IPv4 and MAC address tests, the rack-unit range check and how the
// forms use it, the parser of the free-form attribute lines, the reading
// of form values and the count of outstanding replies. The page's inputs
// are parameters: valueOf gives the value of the input with an id, and a
// select box is the list of its option values. Alerts are not modelled.

module InventoryJs {
  import opened Common
  import opened JsCommon

  // ---------------------------------------------------------------------
  // isIPAddress

  /** An octet passes unless isNaN(o), parseInt(o) < 0 or parseInt(o) > 255; NaN compares false. */
  predicate OctetPasses(o: string)
  {
    !NumberJs(o).NaN? && !(ParseIntJs(o).Some? && (ParseIntJs(o).value < 0 || ParseIntJs(o).value > 255))
  }

  /** What isIPAddress accepts: four '.'-separated parts that all pass. */
  predicate IPAddressPasses(ip: string)
  {
    |Split(ip, '.')| == 4 && forall k :: 0 <= k < 4 ==> OctetPasses(Split(ip, '.')[k])
  }

  /** isIPAddress, with its early returns. */
  method IsIPAddress(ip: string) returns (r: bool)
    ensures r <==> IPAddressPasses(ip)
  {
    var octets := Split(ip, '.');
    if |octets| != 4 {
      return false;
    }
    r := AllOctetsPass(octets);
  }

  /** The loop of isIPAddress over the parts: false at the first one that fails. */
  method AllOctetsPass(octets: seq<string>) returns (r: bool)
    ensures r <==> forall k :: 0 <= k < |octets| ==> OctetPasses(octets[k])
  {
    for i := 0 to |octets|
      invariant forall k :: 0 <= k < i ==> OctetPasses(octets[k])
    {
      var passes := CheckOctet(octets[i]);
      if !passes {
        return false;
      }
      forall k | 0 <= k < i + 1
        ensures OctetPasses(octets[k])
      {
        if k == i {
          assert octets[k] == octets[i];
        }
      }
    }
    return true;
  }

  /** The test of one octet inside the loop of isIPAddress. */
  method CheckOctet(o: string) returns (r: bool)
    ensures r <==> OctetPasses(o)
  {
    var number := NumberJs(o);
    var value := ParseIntJs(o);
    r := !(number.NaN? || (value.Some? && (value.value < 0 || value.value > 255)));
  }

  /** A part with whitespace around its digits passes: isNaN(" 1 ") is false and parseInt(" 1 ") is 1. */
  lemma PaddedOctetPasses()
    ensures NumberJs(" 1 ") == Finite(1.0) && ParseIntJs(" 1 ") == Some(1) && OctetPasses(" 1 ")
  {
    assert LStrip(" 1 ") == "1 " by {
      assert " 1 "[1..] == "1 ";
    }
    assert RStrip("1 ") == "1" by {
      assert "1 "[..1] == "1";
    }
    assert DigitsValue("1") == 1 by {
      assert "1"[..0] == "";
    }
    UnsignedRunPrefix("1", "1 ");
  }

  /** parseInt agrees with int() on every text int() accepts. */
  lemma ParseIntJsAgrees(o: string)
    requires ParseInt(o).Some?
    ensures ParseIntJs(o) == ParseInt(o)
  {
    ParseIntStrips(o);
    SignedRunAgrees(LStrip(o), Strip(o));
  }

  /** After the leading whitespace, parseInt reads what int() reads once the trailing whitespace is gone. */
  lemma SignedRunAgrees(l: string, t: string)
    requires t == RStrip(l) && ParseDecimal(t).Some?
    ensures SignedRun(l) == ParseDecimal(t)
  {
    RStripStopsAtSpace(l);
    assert |t| > 0 && l[..|t|] == t && l[0] == t[0];
    if AllDigits(t) {
      MagnitudePrefix(t, l);
    } else {
      assert l[1..][..|t| - 1] == t[1..];
      MagnitudePrefix(t[1..], l[1..]);
    }
  }

  /** The decimal texts of the numbers in ns, in order. */
  function Octets(ns: seq<nat>): (r: seq<string>)
    ensures |r| == |ns| && forall k :: 0 <= k < |ns| ==> r[k] == NatToString(ns[k])
  {
    if ns == [] then [] else [NatToString(ns[0])] + Octets(ns[1..])
  }

  /** Four numbers in 0..255 written in decimal and joined with '.' pass. */
  lemma DottedQuadPasses(ns: seq<nat>)
    requires |ns| == 4 && forall k :: 0 <= k < 4 ==> ns[k] <= 255
    ensures IPAddressPasses(JoinWith(Octets(ns), "."))
  {
    var parts := Octets(ns);
    SplitOctets(ns);
    forall k | 0 <= k < 4
      ensures OctetPasses(parts[k])
    {
      OctetText(ns[k]);
    }
    PassingParts(JoinWith(parts, "."), parts);
  }

  lemma SplitOctets(ns: seq<nat>)
    requires |ns| == 4 && forall k :: 0 <= k < 4 ==> ns[k] <= 255
    ensures Split(JoinWith(Octets(ns), "."), '.') == Octets(ns)
  {
    var parts := Octets(ns);
    forall k | 0 <= k < 4
      ensures '.' !in parts[k]
    {
      OctetText(ns[k]);
    }
    assert parts == [parts[0], parts[1], parts[2], parts[3]];
    SplitFour(parts[0], parts[1], parts[2], parts[3]);
  }

  lemma PassingParts(ip: string, parts: seq<string>)
    requires Split(ip, '.') == parts && |parts| == 4
    requires forall k :: 0 <= k < 4 ==> OctetPasses(parts[k])
    ensures IPAddressPasses(ip)
  {
  }

  /** Four parts without '.' joined with '.' split back into themselves. */
  lemma SplitFour(p0: string, p1: string, p2: string, p3: string)
    requires '.' !in p0 && '.' !in p1 && '.' !in p2 && '.' !in p3
    ensures Split(JoinWith([p0, p1, p2, p3], "."), '.') == [p0, p1, p2, p3]
  {
    var parts := [p0, p1, p2, p3];
    assert forall i :: 0 <= i < |parts| ==> '.' !in parts[i];
    assert "." == ['.'];
    SplitJoin(parts, '.');
  }

  lemma OctetText(n: nat)
    requires n <= 255
    ensures '.' !in NatToString(n) && OctetPasses(NatToString(n))
  {
    var t := NatToString(n);
    ParseNatString(n);
    ParseIntJsAgrees(t);
  }

  /** A part that is a number outside 0..255 makes the address fail. */
  lemma OutOfRangeFails(ip: string, k: int)
    requires 0 <= k < |Split(ip, '.')| && ParseInt(Split(ip, '.')[k]).Some?
    requires ParseInt(Split(ip, '.')[k]).value < 0 || ParseInt(Split(ip, '.')[k]).value > 255
    ensures !IPAddressPasses(ip)
  {
    ParseIntJsAgrees(Split(ip, '.')[k]);
  }

  /**
   * The check as evidently intended: four parts, each an optionally signed
   * decimal number in 0..255.
   */
  predicate IPAddressValid(ip: string)
  {
    |Split(ip, '.')| == 4 &&
    forall k :: 0 <= k < 4 ==> ParseInt(Split(ip, '.')[k]).Some? && 0 <= ParseInt(Split(ip, '.')[k]).value <= 255
  }

  /** The check as written also lets empty parts through: "..." passes. */
  lemma EmptyOctetsPass()
    ensures IPAddressPasses("...") && !IPAddressValid("...")
  {
    assert Split("", '.') == [""];
    assert Split(".", '.') == ["", ""] by {
      assert "."[1..] == "";
    }
    assert Split("..", '.') == ["", "", ""] by {
      assert ".."[1..] == ".";
    }
    assert Split("...", '.') == ["", "", "", ""] by {
      assert "..."[1..] == "..";
    }
    assert OctetPasses("") by {
      assert LStrip("") == "";
      assert DigitRun("") == 0;
    }
    assert forall k :: 0 <= k < 4 ==> OctetPasses(Split("...", '.')[k]);
    assert IPAddressPasses("...");
    assert ParseInt(Split("...", '.')[0]).None?;
  }

  /**
   * A part that is "Infinity", signed or not, passes: isNaN of it is false,
   * parseInt of it is NaN and so neither comparison holds.
   */
  lemma InfinityOctetPasses(o: string)
    requires Strip(o) == "Infinity" || Strip(o) == "+Infinity" || Strip(o) == "-Infinity"
    ensures OctetPasses(o) && ParseInt(o).None?
  {
    ParseIntJsInfinity(o);
    ParseIntStrips(o);
  }

  /** So the check as written accepts "Infinity.Infinity.Infinity.Infinity", which is no address. */
  lemma InfinityOctetsPass()
    ensures IPAddressPasses("Infinity.Infinity.Infinity.Infinity") && !IPAddressValid("Infinity.Infinity.Infinity.Infinity")
  {
    InfinitySplits();
    InfinityWordPasses();
    RepeatedPartPasses("Infinity.Infinity.Infinity.Infinity", "Infinity");
  }

  /** Four copies of a part that passes but that int() refuses pass the check as written and not the intended one. */
  lemma RepeatedPartPasses(ip: string, w: string)
    requires Split(ip, '.') == [w, w, w, w] && OctetPasses(w) && ParseInt(w).None?
    ensures IPAddressPasses(ip) && !IPAddressValid(ip)
  {
    var parts := [w, w, w, w];
    forall k | 0 <= k < 4
      ensures OctetPasses(parts[k])
    {
      assert parts[k] == w;
    }
    PassingParts(ip, parts);
    assert ParseInt(parts[0]).None?;
  }

  lemma InfinityWordPasses()
    ensures OctetPasses("Infinity") && ParseInt("Infinity").None?
  {
    InfinityStrips();
    InfinityOctetPasses("Infinity");
  }

  lemma InfinityStrips()
    ensures Strip("Infinity") == "Infinity"
  {
    StripNoSpace("Infinity");
  }

  lemma InfinitySplits()
    ensures Split("Infinity.Infinity.Infinity.Infinity", '.') == ["Infinity", "Infinity", "Infinity", "Infinity"]
  {
    var w := "Infinity";
    assert '.' !in w;
    SplitFour(w, w, w, w);
    InfinityJoined();
  }

  lemma InfinityJoined()
    ensures JoinWith(["Infinity", "Infinity", "Infinity", "Infinity"], ".") == "Infinity.Infinity.Infinity.Infinity"
  {
    var w := "Infinity";
    var ws := [w, w, w, w];
    assert ws[1..] == [w, w, w] && ws[1..][1..] == [w, w] && ws[1..][1..][1..] == [w];
    assert JoinWith([w], ".") == w;
    assert JoinWith([w, w], ".") == w + "." + w;
    assert JoinWith([w, w, w], ".") == w + "." + (w + "." + w);
  }

  /**
   * The intended check accepts exactly the addresses the written one accepts
   * whose parts are all decimal integers for int(): no blank part, no
   * "Infinity", no exponent or prefixed form.
   */
  lemma IntendedNeedsDecimal(ip: string)
    ensures IPAddressValid(ip) <==> IPAddressPasses(ip) && forall k :: 0 <= k < 4 ==> ParseInt(Split(ip, '.')[k]).Some?
  {
    if |Split(ip, '.')| == 4 {
      forall k | 0 <= k < 4
        ensures (ParseInt(Split(ip, '.')[k]).Some? && 0 <= ParseInt(Split(ip, '.')[k]).value <= 255) <==>
          (OctetPasses(Split(ip, '.')[k]) && ParseInt(Split(ip, '.')[k]).Some?)
      {
        OctetValid(Split(ip, '.')[k]);
      }
    }
  }

  /** One part: a number in 0..255 for int() exactly when it passes and int() reads it. */
  lemma OctetValid(o: string)
    ensures (ParseInt(o).Some? && 0 <= ParseInt(o).value <= 255) <==> (OctetPasses(o) && ParseInt(o).Some?)
  {
    if ParseInt(o).Some? {
      ParseIntJsAgrees(o);
    }
  }

  // ---------------------------------------------------------------------
  // isMACAddress

  /** The class [0-9|a-f|A-F] of the pattern, which also admits '|' (allowBar); without it, the hex digits. */
  predicate ClassChar(c: char, allowBar: bool)
  {
    IsDigit(c) || 'a' <= c <= 'f' || 'A' <= c <= 'F' || (allowBar && c == '|')
  }

  /** The pattern ([class][class]:){n}([class][class])$, anchored at the start of s. */
  predicate MatchGroups(s: string, n: nat, allowBar: bool)
    decreases n
  {
    if n == 0 then |s| == 2 && ClassChar(s[0], allowBar) && ClassChar(s[1], allowBar)
    else |s| >= 3 && ClassChar(s[0], allowBar) && ClassChar(s[1], allowBar) && s[2] == ':' && MatchGroups(s[3..], n - 1, allowBar)
  }

  /** isMACAddress: the string matches ^([0-9|a-f|A-F][0-9|a-f|A-F]:){5}([0-9|a-f|A-F][0-9|a-f|A-F])$. */
  predicate IsMACAddress(s: string)
  {
    MatchGroups(s, 5, true)
  }

  /** The pattern by position: 3n+2 characters, ':' at every third, class characters elsewhere. */
  lemma {:induction false} MatchGroupsShape(s: string, n: nat, allowBar: bool)
    ensures MatchGroups(s, n, allowBar) <==>
      (|s| == 3 * n + 2 && forall i :: 0 <= i < |s| ==> if i % 3 == 2 then s[i] == ':' else ClassChar(s[i], allowBar))
    decreases n
  {
    if n > 0 && |s| >= 3 {
      MatchGroupsShape(s[3..], n - 1, allowBar);
      forall i | 3 <= i < |s|
        ensures i % 3 == (i - 3) % 3 && s[i] == s[3..][i - 3]
      {
      }
    }
  }

  /** The MAC address test by position: length 17, ':' at 2, 5, 8, 11 and 14, class characters (with '|') elsewhere. */
  lemma MACAddressShape(s: string)
    ensures IsMACAddress(s) <==>
      (|s| == 17 && forall i :: 0 <= i < 17 ==> if i % 3 == 2 then s[i] == ':' else ClassChar(s[i], true))
  {
    MatchGroupsShape(s, 5, true);
  }

  /** The pattern lets '|' through, which the hex class evidently intended does not; otherwise the two agree. */
  lemma MACAddressBar()
    ensures IsMACAddress("||:||:||:||:||:||") && !MatchGroups("||:||:||:||:||:||", 5, false)
  {
    MACAddressShape("||:||:||:||:||:||");
  }

  lemma MACAddressHexAgrees(s: string)
    ensures MatchGroups(s, 5, false) <==> IsMACAddress(s) && '|' !in s
  {
    MatchGroupsShape(s, 5, false);
    MatchGroupsShape(s, 5, true);
    if IsMACAddress(s) && '|' !in s {
      forall i | 0 <= i < |s| && i % 3 != 2
        ensures ClassChar(s[i], false)
      {
        assert s[i] in s;
      }
    }
  }

  // ---------------------------------------------------------------------
  // verifyRackUnits and the forms

  /**
   * What verifyRackUnits accepts. As written the loop stops before the end
   * unit (through is false); through includes it, as the rack units a node
   * occupies run from its start unit to its end unit inclusive.
   */
  predicate RackUnitsOk(startText: string, endText: string, box: seq<string>, through: bool)
  {
    UnitsFree(ParseIntJs(startText), ParseIntJs(endText), box, through)
  }

  /** The range check on the parsed units; NaN on either side lets the range through. */
  predicate UnitsFree(a: Option<int>, b: Option<int>, box: seq<string>, through: bool)
  {
    a.Some? && b.Some? ==>
      a.value <= b.value && forall i :: a.value <= i < b.value + (if through then 1 else 0) ==> IntToString(i) in box
  }

  /** verifyRackUnits, with the start unit select box's option values. */
  method VerifyRackUnits(startText: string, endText: string, box: seq<string>) returns (r: bool)
    ensures r == RackUnitsOk(startText, endText, box, false)
  {
    var a := ParseIntJs(startText);
    var b := ParseIntJs(endText);
    if a.Some? && b.Some? && a.value > b.value {
      return false;
    }
    if a.None? || b.None? {
      return true;
    }
    var i := a.value;
    while i < b.value
      invariant a.value <= i <= b.value
      invariant forall j :: a.value <= j < i ==> IntToString(j) in box
      decreases b.value - i
    {
      if IntToString(i) !in box {
        return false;
      }
      i := i + 1;
    }
    return true;
  }

  /** The end unit is not checked: units 1..2 pass when only unit 1 is free. */
  lemma RackEndUnitUnchecked()
    ensures RackUnitsOk("1", "2", ["1"], false) && !RackUnitsOk("1", "2", ["1"], true)
  {
    UnitText(1, "1");
    UnitText(2, "2");
    UnitsOneTwo();
  }

  /** The inclusive check is the written one with the end unit looked up as well. */
  lemma InclusiveChecksEndUnit(a: int, b: int, box: seq<string>)
    ensures UnitsFree(Some(a), Some(b), box, true) <==>
            UnitsFree(Some(a), Some(b), box, false) && (a <= b ==> IntToString(b) in box)
  {
    if UnitsFree(Some(a), Some(b), box, false) && a <= b && IntToString(b) in box {
      forall i | a <= i < b + 1
        ensures IntToString(i) in box
      {
        if i < b {
          assert a <= i < b + 0;
        }
      }
    }
  }

  lemma UnitsOneTwo()
    ensures UnitsFree(Some(1), Some(2), ["1"], false) && !UnitsFree(Some(1), Some(2), ["1"], true)
  {
    assert IntToString(1) in ["1"];
    assert IntToString(2) !in ["1"];
  }

  /** parseInt reads back the text of a unit number. */
  lemma UnitText(n: int, t: string)
    requires t == IntToString(n)
    ensures ParseIntJs(t) == Some(n)
  {
    ParseIntJsOfIntToString(n);
  }

  /**
   * The end of verifyComputerForm, verifyServerForm and verifyPowerswitchForm:
   * earlier is the outcome of the checks before the rack step. As written
   * the step tests `!verifyRackUnits`, the negation of a function object,
   * which is false (called is false); called stands for the evidently
   * intended `!verifyRackUnits()`. A form passes exactly when the earlier
   * checks pass and, when the rack step is called, verifyRackUnits accepts
   * the units: either is not a number, or the start is not above the end
   * and every unit from the start up to, not including, the end is offered
   * in the start unit box.
   */
  predicate FormPasses(earlier: bool, called: bool, startText: string, endText: string, box: seq<string>)
  {
    earlier && (called ==> RackUnitsOk(startText, endText, box, false))
  }

  /** As written the rack range never rejects a form; called, a reversed range does. */
  lemma RackStepNeverRejects(earlier: bool, startText: string, endText: string, box: seq<string>)
    ensures FormPasses(earlier, false, startText, endText, box) == earlier
    ensures !FormPasses(true, true, "5", "3", box)
  {
    UnitText(5, "5");
    UnitText(3, "3");
  }

  // ---------------------------------------------------------------------
  // checkAndRetrieveAttributes

  /** The name of an attribute line: the text before '=' less one character (a space before '='). */
  function AttributeName(line: string): string
  {
    Substring(line, 0, Find(line, "=") - 1)
  }

  /** The value of an attribute line: the text from two characters after '='. */
  function AttributeValue(line: string): string
  {
    Substring(line, Find(line, "=") + 2, |line|)
  }

  /** The name clashes with a form input, ignoring case. */
  predicate IsInputName(name: string, inputNames: seq<string>)
  {
    exists j :: 0 <= j < |inputNames| && Upper(name) == Upper(inputNames[j])
  }

  /** The state of the parse: going on, stopped by a null return, or stopped by an exception the catch swallows. */
  datatype Parse = Going(attributes: map<string, string>) | Null | Caught(attributes: map<string, string>)

  /** The parse after the first n lines; inputNames is None when the element type has no form fields. */
  function ParseLines(lines: seq<string>, n: nat, inputNames: Option<seq<string>>): Parse
    requires n <= |lines|
    decreases n
  {
    if n == 0 then Going(map[])
    else
      var before := ParseLines(lines, n - 1, inputNames);
      var name := AttributeName(lines[n - 1]);
      if !before.Going? then before
      else if Contains(name, " ") then Null
      else if inputNames.None? then Caught(before.attributes)
      else if IsInputName(name, inputNames.value) then Null
      else Going(before.attributes[name := AttributeValue(lines[n - 1])])
  }

  /** checkAndRetrieveAttributes over the text area's lines; the line after the last newline is not read. */
  method CheckAndRetrieveAttributes(text: string, inputNames: Option<seq<string>>) returns (r: Option<map<string, string>>)
    ensures var lines := Split(text, '\n'); var p := ParseLines(lines, |lines| - 1, inputNames);
      (r.None? <==> p.Null?) && (r.Some? ==> r.value == p.attributes)
  {
    var lines := Split(text, '\n');
    var attributes: map<string, string> := map[];
    for i := 0 to |lines| - 1
      invariant ParseLines(lines, i, inputNames) == Going(attributes)
    {
      var name := AttributeName(lines[i]);
      FindIffContains(name, " ");
      if Find(name, " ") != -1 {
        ParseStops(lines, inputNames, i + 1, |lines| - 1);
        return None;
      }
      if inputNames.None? {
        ParseStops(lines, inputNames, i + 1, |lines| - 1);
        return Some(attributes);
      }
      var clash := MatchesInput(name, inputNames.value);
      if clash {
        ParseStops(lines, inputNames, i + 1, |lines| - 1);
        return None;
      }
      attributes := attributes[name := AttributeValue(lines[i])];
    }
    return Some(attributes);
  }

  /** The inner loop over the form's inputs: some input has the name, ignoring case. */
  method MatchesInput(name: string, fields: seq<string>) returns (r: bool)
    ensures r <==> IsInputName(name, fields)
  {
    for j := 0 to |fields|
      invariant forall k :: 0 <= k < j ==> Upper(name) != Upper(fields[k])
    {
      if Upper(name) == Upper(fields[j]) {
        return true;
      }
    }
    return false;
  }

  lemma {:induction false} ParseStops(lines: seq<string>, inputNames: Option<seq<string>>, i: nat, n: nat)
    requires i <= n <= |lines| && !ParseLines(lines, i, inputNames).Going?
    ensures ParseLines(lines, n, inputNames) == ParseLines(lines, i, inputNames)
    decreases n - i
  {
    if n > i {
      ParseStops(lines, inputNames, i, n - 1);
    }
  }

  /** A line the form refuses: its name has a space or is a form input's name. */
  predicate Refused(line: string, inputNames: seq<string>)
  {
    Contains(AttributeName(line), " ") || IsInputName(AttributeName(line), inputNames)
  }

  /** With form fields known, the parse is null iff some line is refused, and never stopped by an exception. */
  lemma {:induction false} ParseNullMeaning(lines: seq<string>, n: nat, inputNames: seq<string>)
    requires n <= |lines|
    ensures !ParseLines(lines, n, Some(inputNames)).Caught?
    ensures ParseLines(lines, n, Some(inputNames)).Null? <==> exists k :: 0 <= k < n && Refused(lines[k], inputNames)
    decreases n
  {
    if n > 0 {
      ParseNullMeaning(lines, n - 1, inputNames);
    }
  }

  /** A parse that goes on holds exactly the lines' names. */
  lemma {:induction false} ParseKeysMeaning(lines: seq<string>, n: nat, inputNames: seq<string>)
    requires n <= |lines| && ParseLines(lines, n, Some(inputNames)).Going?
    ensures forall name :: name in ParseLines(lines, n, Some(inputNames)).attributes <==>
      exists k :: 0 <= k < n && AttributeName(lines[k]) == name
    decreases n
  {
    if n > 0 {
      ParseKeysMeaning(lines, n - 1, inputNames);
    }
  }

  /** Each name holds the value of the last line with that name. */
  lemma {:induction false} ParseValuesMeaning(lines: seq<string>, n: nat, inputNames: seq<string>, k: nat)
    requires k < n <= |lines| && ParseLines(lines, n, Some(inputNames)).Going?
    requires forall k' :: k < k' < n ==> AttributeName(lines[k']) != AttributeName(lines[k])
    ensures AttributeName(lines[k]) in ParseLines(lines, n, Some(inputNames)).attributes
    ensures ParseLines(lines, n, Some(inputNames)).attributes[AttributeName(lines[k])] == AttributeValue(lines[k])
    decreases n
  {
    if k < n - 1 {
      ParseValuesMeaning(lines, n - 1, inputNames, k);
    }
  }

  /** Without form fields, the parse stops at its first line: null if that line's name has a space, else empty. */
  lemma ParseWithoutFields(lines: seq<string>, n: nat)
    requires 0 < n <= |lines|
    ensures ParseLines(lines, n, None) == if Contains(AttributeName(lines[0]), " ") then Null else Caught(map[])
  {
    ParseStops(lines, None, 1, n);
  }

  // ---------------------------------------------------------------------
  // retrieveInputValues, areValuesSelected

  /** retrieveInputValues: each named input's value, with "please select..." and "" read as "none". */
  method RetrieveInputValues(inputNames: seq<string>, valueOf: string -> string) returns (values: map<string, string>)
    ensures values.Keys == set n | n in inputNames
    ensures forall n :: n in values ==>
      var v := valueOf("inventory-" + n + "id");
      values[n] == if v == "please select..." || v == "" then "none" else v
  {
    values := map[];
    for i := 0 to |inputNames|
      invariant values.Keys == set n | n in inputNames[..i]
      invariant forall n :: n in values ==>
        var v := valueOf("inventory-" + n + "id");
        values[n] == if v == "please select..." || v == "" then "none" else v
    {
      assert inputNames[..i + 1] == inputNames[..i] + [inputNames[i]];
      var value := valueOf("inventory-" + inputNames[i] + "id");
      if value == "please select..." || value == "" {
        value := "none";
      }
      values := values[inputNames[i] := value];
    }
    assert inputNames[..|inputNames|] == inputNames;
  }

  /** The placeholder values of a select box that has not been set. */
  predicate Placeholder(v: string)
  {
    v == "please select..." || v == "please wait..." || v == "other..."
  }

  /** areValuesSelected: false iff some box holds a placeholder. */
  method AreValuesSelected(boxIDs: seq<string>, valueOf: string -> string) returns (r: bool)
    ensures r <==> forall k :: 0 <= k < |boxIDs| ==> !Placeholder(valueOf(boxIDs[k]))
  {
    for i := 0 to |boxIDs|
      invariant forall k :: 0 <= k < i ==> !Placeholder(valueOf(boxIDs[k]))
    {
      var value := valueOf(boxIDs[i]);
      if value == "please select..." || value == "please wait..." || value == "other..." {
        return false;
      }
    }
    return true;
  }

  // ---------------------------------------------------------------------
  // countOutstandingReplies

  /** What the page does once a populate reply is counted. */
  datatype NextStep = RequestEditInfo | EnableControls | Wait

  class InventoryPage {
    var outstandingPopulateRequests: int
    var mode: string

    constructor (requests: int, mode: string)
      ensures outstandingPopulateRequests == requests && this.mode == mode
    {
      outstandingPopulateRequests := requests;
      this.mode := mode;
    }

    /** countOutstandingReplies: one reply fewer; the last one fetches the element (edit mode) or re-enables the page. */
    method CountOutstandingReplies() returns (next: NextStep)
      modifies this
      ensures outstandingPopulateRequests == old(outstandingPopulateRequests) - 1 && mode == old(mode)
      ensures next == if outstandingPopulateRequests == 0 && mode == "edit" then RequestEditInfo
        else if outstandingPopulateRequests == 0 then EnableControls else Wait
    {
      outstandingPopulateRequests := outstandingPopulateRequests - 1;
      if outstandingPopulateRequests == 0 && mode == "edit" {
        next := RequestEditInfo;
      } else if outstandingPopulateRequests == 0 {
        next := EnableControls;
      } else {
        next := Wait;
      }
    }
  }

  /** Of n replies counted from n outstanding requests, only the last one moves on. */
  method CountAll(n: nat, mode: string) returns (steps: seq<NextStep>)
    ensures |steps| == n
    ensures forall k :: 0 <= k < n - 1 ==> steps[k] == Wait
    ensures n > 0 ==> steps[n - 1] == if mode == "edit" then RequestEditInfo else EnableControls
  {
    var page := new InventoryPage(n, mode);
    steps := [];
    for k := 0 to n
      invariant |steps| == k && page.outstandingPopulateRequests == n - k && page.mode == mode
      invariant forall j :: 0 <= j < k ==>
        steps[j] == if j < n - 1 then Wait else if mode == "edit" then RequestEditInfo else EnableControls
    {
      var next := page.CountOutstandingReplies();
      steps := steps + [next];
    }
  }
}
