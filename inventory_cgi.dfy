// The computations behind the inventory CGI script
// (gui/components/inventory/inventorycgi.py): renaming form parameters,
// ordering element ids by their number, the status values offered for an
// element type, the item list of a node's description, and the service
// processors, power and serial ports and rack units not yet assigned to a
// node. The testbed's parsed elements are inputs; the XML replies are not
// modelled.

module InventoryCgi {
  import opened Common
  import HF = HenFunctions
  import HP = HenParser

  // ---------------------------------------------------------------------
  // convertParameterNames

  /** The form names that convertParameterNames renames, with their new names. */
  const NAMES_MAPPING: map<string, string> := map[
    "rackname" := "rackName", "powerswitch" := "powerNodeID", "powerswitchport" := "powerNodePort",
    "serial" := "serialNodeID", "serialport" := "serialNodePort", "serviceprocessor" := "SPNodeID",
    "rackrow" := "rackRow", "rackstartunit" := "rackStartUnit", "rackendunit" := "rackEndUnit",
    "nodeposition" := "nodePosition", "rearrightslots" := "rearRightSlots", "rearleftslots" := "rearLeftSlots",
    "numberunits" := "numberUnits", "externalmacaddress" := "externalMACAddress", "externalip" := "externalIP",
    "externalsubnet" := "externalSubnet", "ostype" := "osType", "mustclone" := "mustClone",
    "rowposition" := "rowPosition", "numberports" := "numberPorts"]

  function Rename(name: string): string
  {
    if name in NAMES_MAPPING then NAMES_MAPPING[name] else name
  }

  /**
   * convertParameterNames. The keys are visited in an unspecified order;
   * when two keys get the same new name, the value of either may win.
   */
  method ConvertParameterNames(parameters: map<string, string>) returns (r: map<string, string>)
    ensures forall n :: n in r <==> exists k :: k in parameters && Rename(k) == n
    ensures forall n :: n in r ==> exists k :: k in parameters && Rename(k) == n && r[n] == parameters[k]
  {
    r := map[];
    var todo := parameters.Keys;
    while todo != {}
      invariant todo <= parameters.Keys
      invariant forall n :: n in r <==> exists k :: k in parameters && k !in todo && Rename(k) == n
      invariant forall n :: n in r ==> exists k :: k in parameters && Rename(k) == n && r[n] == parameters[k]
      decreases |todo|
    {
      var oldName :| oldName in todo;
      if oldName in NAMES_MAPPING {
        r := r[NAMES_MAPPING[oldName] := parameters[oldName]];
      } else {
        r := r[oldName := parameters[oldName]];
      }
      todo := todo - {oldName};
    }
  }

  /**
   * When no two submitted names get the same new name (the form submits
   * lower-case names, and every new name has a capital), every value
   * survives under its key's new name.
   */
  lemma RenamePreservesValues(parameters: map<string, string>, r: map<string, string>)
    requires forall a, b :: a in parameters && b in parameters && Rename(a) == Rename(b) ==> a == b
    requires forall n :: n in r <==> exists k :: k in parameters && Rename(k) == n
    requires forall n :: n in r ==> exists k :: k in parameters && Rename(k) == n && r[n] == parameters[k]
    ensures forall k :: k in parameters ==> Rename(k) in r && r[Rename(k)] == parameters[k]
    ensures |r| == |parameters|
  {
    forall k | k in parameters
      ensures Rename(k) in r && r[Rename(k)] == parameters[k]
    {
      var k' :| k' in parameters && Rename(k') == Rename(k) && r[Rename(k)] == parameters[k'];
    }
    RenamedSize(parameters, r);
  }

  lemma RenamedSize(parameters: map<string, string>, r: map<string, string>)
    requires forall a, b :: a in parameters && b in parameters && Rename(a) == Rename(b) ==> a == b
    requires forall n :: n in r <==> exists k :: k in parameters && Rename(k) == n
    ensures |r| == |parameters|
  {
    var image := set k | k in parameters.Keys :: Rename(k);
    assert r.Keys == image;
    InjectiveImageSize(parameters.Keys, image);
  }

  lemma {:induction false} InjectiveImageSize(keys: set<string>, image: set<string>)
    requires forall a, b :: a in keys && b in keys && Rename(a) == Rename(b) ==> a == b
    requires image == set k | k in keys :: Rename(k)
    ensures |image| == |keys|
    decreases |keys|
  {
    if keys != {} {
      var k :| k in keys;
      var rest := keys - {k};
      var restImage := set x | x in rest :: Rename(x);
      assert image == restImage + {Rename(k)};
      assert Rename(k) !in restImage;
      InjectiveImageSize(rest, restImage);
    }
  }

  // ---------------------------------------------------------------------
  // sortElementIDs

  /** The ids that contain the type string, in order. */
  function Kept(elements: seq<string>, elementType: string): (r: seq<string>)
    ensures forall e :: e in r <==> e in elements && Contains(e, elementType)
    decreases |elements|
  {
    if |elements| == 0 then []
    else
      var n := |elements| - 1;
      assert elements == elements[..n] + [elements[n]];
      Kept(elements[..n], elementType) + (if Contains(elements[n], elementType) then [elements[n]] else [])
  }

  /** idx is what findFirstNumberInString gives for s. */
  predicate FirstDigitAt(s: string, idx: int)
  {
    (idx == -1 && forall i :: 0 <= i < |s| ==> !IsDigit(s[i])) ||
    (0 <= idx < |s| && IsDigit(s[idx]) && forall i :: 0 <= i < idx ==> !IsDigit(s[i]))
  }

  /** int(e[idx:]) for every kept id; None when one of them is not a number. */
  function Suffixes(kept: seq<string>, idx: int): Option<seq<int>>
    decreases |kept|
  {
    if |kept| == 0 then Some([])
    else
      var n := |kept| - 1;
      var rest := Suffixes(kept[..n], idx);
      var v := ParseInt(Slice(kept[n], idx, |kept[n]|));
      if rest.None? || v.None? then None else Some(rest.value + [v.value])
  }

  /** type + str(n) for each number. */
  function Names(elementType: string, numbers: seq<int>): (r: seq<string>)
    ensures |r| == |numbers|
    ensures forall k :: 0 <= k < |numbers| ==> r[k] == elementType + IntToString(numbers[k])
    decreases |numbers|
  {
    if |numbers| == 0 then []
    else
      var n := |numbers| - 1;
      Names(elementType, numbers[..n]) + [elementType + IntToString(numbers[n])]
  }

  /**
   * sortElementIDs. None is the exception of indexing an empty filtered
   * list or of int() on a suffix that is not a number.
   */
  method SortElementIDs(elements: seq<string>, elementType: string) returns (r: Option<seq<string>>)
    ensures |Kept(elements, elementType)| == 0 ==> r.None?
    ensures forall idx :: |Kept(elements, elementType)| > 0 && FirstDigitAt(Kept(elements, elementType)[0], idx) ==>
      (Suffixes(Kept(elements, elementType), idx).None? <==> r.None?) &&
      (r.Some? ==> r.value == Names(elementType, SortInts(Suffixes(Kept(elements, elementType), idx).value)))
  {
    var filtered := KeepMatching(elements, elementType);
    if |filtered| == 0 {
      return None;
    }
    var indexFirstNumber := HF.FindFirstNumberInString(filtered[0]);
    assert FirstDigitAt(filtered[0], indexFirstNumber);
    FirstDigitUnique(filtered[0], indexFirstNumber);
    var numberList := ParseSuffixes(filtered, indexFirstNumber);
    if numberList.None? {
      return None;
    }
    var sorted := SortInts(numberList.value);
    var ids := TypedNames(elementType, sorted);
    return Some(ids);
  }

  /** The filter loop of sortElementIDs. */
  method KeepMatching(elements: seq<string>, elementType: string) returns (filtered: seq<string>)
    ensures filtered == Kept(elements, elementType)
  {
    filtered := [];
    for i := 0 to |elements|
      invariant filtered == Kept(elements[..i], elementType)
    {
      assert elements[..i + 1][..i] == elements[..i];
      FindIffContains(elements[i], elementType);
      if Find(elements[i], elementType) != -1 {
        filtered := filtered + [elements[i]];
      }
    }
    assert elements[..|elements|] == elements;
  }

  /** The int() loop of sortElementIDs. */
  method ParseSuffixes(filtered: seq<string>, indexFirstNumber: int) returns (r: Option<seq<int>>)
    ensures r == Suffixes(filtered, indexFirstNumber)
  {
    var numberList: seq<int> := [];
    for i := 0 to |filtered|
      invariant Suffixes(filtered[..i], indexFirstNumber) == Some(numberList)
    {
      assert filtered[..i + 1][..i] == filtered[..i];
      var v := ParseInt(Slice(filtered[i], indexFirstNumber, |filtered[i]|));
      if v.None? {
        SuffixesStayNone(filtered, indexFirstNumber, i + 1);
        return None;
      }
      numberList := numberList + [v.value];
    }
    assert filtered[..|filtered|] == filtered;
    return Some(numberList);
  }

  /** The loop of sortElementIDs that rebuilds the ids from the sorted numbers. */
  method TypedNames(elementType: string, sorted: seq<int>) returns (ids: seq<string>)
    ensures ids == Names(elementType, sorted)
  {
    ids := [];
    for i := 0 to |sorted|
      invariant ids == Names(elementType, sorted[..i])
    {
      assert sorted[..i + 1][..i] == sorted[..i];
      ids := ids + [elementType + IntToString(sorted[i])];
    }
    assert sorted[..|sorted|] == sorted;
  }

  lemma FirstDigitUnique(s: string, idx: int)
    requires FirstDigitAt(s, idx)
    ensures forall j :: FirstDigitAt(s, j) ==> j == idx
  {
  }

  lemma {:induction false} SuffixesStayNone(kept: seq<string>, idx: int, i: nat)
    requires i <= |kept| && Suffixes(kept[..i], idx).None?
    ensures Suffixes(kept, idx).None?
    decreases |kept| - i
  {
    if i < |kept| {
      assert kept[..i + 1][..i] == kept[..i];
      SuffixesStayNone(kept, idx, i + 1);
    } else {
      assert kept[..i] == kept;
    }
  }

  /**
   * The ids sortElementIDs returns: one per kept id, each the type followed
   * by one of the numbers, in ascending order of the numbers.
   */
  lemma SortedNamesMeaning(elementType: string, numbers: seq<int>)
    ensures |Names(elementType, SortInts(numbers))| == |numbers|
    ensures forall m :: elementType + IntToString(m) in Names(elementType, SortInts(numbers)) <==> m in numbers
    ensures forall i, j, a, b :: (0 <= i < j < |numbers| &&
      Names(elementType, SortInts(numbers))[i] == elementType + IntToString(a) &&
      Names(elementType, SortInts(numbers))[j] == elementType + IntToString(b)) ==> a <= b
  {
    var sorted := SortInts(numbers);
    SortIntsMeaning(numbers);
    assert |sorted| == |numbers| by {
      assert |multiset(sorted)| == |multiset(numbers)|;
    }
    var r := Names(elementType, sorted);
    forall m
      ensures elementType + IntToString(m) in r <==> m in numbers
    {
      if elementType + IntToString(m) in r {
        var k :| 0 <= k < |r| && r[k] == elementType + IntToString(m);
        NameInjective(elementType, m, sorted[k]);
        assert sorted[k] in multiset(numbers);
      }
      if m in numbers {
        assert m in multiset(sorted);
        var k :| 0 <= k < |sorted| && sorted[k] == m;
        assert r[k] == elementType + IntToString(m);
      }
    }
    forall i, j, a, b | 0 <= i < j < |numbers| && r[i] == elementType + IntToString(a) && r[j] == elementType + IntToString(b)
      ensures a <= b
    {
      NameInjective(elementType, a, sorted[i]);
      NameInjective(elementType, b, sorted[j]);
    }
  }

  lemma NameInjective(t: string, a: int, b: int)
    requires t + IntToString(a) == t + IntToString(b)
    ensures a == b
  {
    assert (t + IntToString(a))[|t|..] == IntToString(a);
    assert (t + IntToString(b))[|t|..] == IntToString(b);
    IntToStringInjective(a, b);
  }

  // ---------------------------------------------------------------------
  // The "statuses" request

  /** The statuses offered for an element type: the first category that lists the type decides. */
  function Statuses(elementType: string): (r: seq<string>)
  {
    if elementType in HP.NODE_TYPES then HP.NODE_STATUSES
    else if elementType in HP.INFRASTRUCTURE_TYPES then HP.INFRASTRUCTURE_STATUSES
    else if elementType in HP.FILENODE_TYPES then HP.TESTBEDFILE_STATUSES
    else []
  }

  /** The type lists are disjoint, so every listed type gets its own category's statuses. */
  lemma StatusesByCategory(elementType: string)
    ensures elementType in HP.NODE_TYPES ==> Statuses(elementType) == HP.NODE_STATUSES
    ensures elementType in HP.INFRASTRUCTURE_TYPES ==> Statuses(elementType) == HP.INFRASTRUCTURE_STATUSES
    ensures elementType in HP.FILENODE_TYPES ==> Statuses(elementType) == HP.TESTBEDFILE_STATUSES
    ensures Statuses(elementType) == [] <==>
      elementType !in HP.NODE_TYPES && elementType !in HP.INFRASTRUCTURE_TYPES && elementType !in HP.FILENODE_TYPES
  {
    if elementType in HP.INFRASTRUCTURE_TYPES {
      assert elementType == "rack" || elementType == "floorbox";
    }
    if elementType in HP.FILENODE_TYPES {
      assert elementType == "filesystem" || elementType == "kernel" || elementType == "loader";
    }
  }

  // ---------------------------------------------------------------------
  // The item list of a node's description

  /**
   * The text of the "<item>" list for a node's description after its first
   * i characters: each newline the check lets through closes an item and
   * opens the next one, '-' is dropped, any other character is copied. The
   * check looks at s[look] for the newline at n: look is constant 1 as
   * written, since `++counter` does not change counter in Python; n + 1 as
   * evidently intended. None is the IndexError of looking past the end.
   */
  function Items(s: string, i: nat, advancing: bool): Option<string>
    requires i <= |s|
    decreases i
  {
    if i == 0 then Some("<item>")
    else
      var n := i - 1;
      var rest := Items(s, n, advancing);
      var look := if advancing then n + 1 else 1;
      if rest.None? then None
      else if s[n] == '\n' && look >= |s| then None
      else if s[n] == '\n' && s[look] != '\n' then Some(rest.value + "</item><item>")
      else if s[n] == '-' then rest
      else Some(rest.value + [s[n]])
  }

  /**
   * The loop over the description. The lookahead index is s[counter + 1];
   * `advancing` chooses whether counter moves on with the letters.
   */
  method ItemizeDescription(s: string, advancing: bool) returns (r: Option<string>)
    ensures r.Some? <==> Items(s, |s|, advancing).Some?
    ensures r.Some? ==> r.value == Items(s, |s|, advancing).value + "</item>"
  {
    var text := "<item>";
    var counter := 0;
    for i := 0 to |s|
      invariant counter == (if advancing then i else 0)
      invariant Items(s, i, advancing) == Some(text)
    {
      var letter := s[i];
      if letter == '\n' && counter + 1 >= |s| {
        ItemsStayNone(s, advancing, i + 1);
        return None;
      }
      if letter == '\n' && s[counter + 1] != '\n' {
        text := text + "</item><item>";
      } else if letter == '-' {
      } else {
        text := text + [letter];
      }
      if advancing {
        counter := counter + 1;
      }
    }
    return Some(text + "</item>");
  }

  lemma {:induction false} ItemsStayNone(s: string, advancing: bool, i: nat)
    requires i <= |s| && Items(s, i, advancing).None?
    ensures Items(s, |s|, advancing).None?
    decreases |s| - i
  {
    if i < |s| {
      ItemsStayNone(s, advancing, i + 1);
    }
  }

  /** As written, "x\ny" stays one item; with counter advancing it is two. */
  lemma ItemsAsWritten()
    ensures Items("x\ny", 3, false) == Some("<item>x\ny")
    ensures Items("x\ny", 3, true) == Some("<item>x</item><item>y")
  {
    var s := "x\ny";
    assert s[0] == 'x' && s[1] == '\n' && s[2] == 'y';
    assert "<item>" + ['x'] == "<item>x";
    assert "<item>x" + ['\n'] == "<item>x\n";
    assert "<item>x\n" + ['y'] == "<item>x\ny";
    assert "<item>x" + "</item><item>" == "<item>x</item><item>";
    assert "<item>x</item><item>" + ['y'] == "<item>x</item><item>y";
    assert Items(s, 1, false) == Some("<item>x");
    assert Items(s, 2, false) == Some("<item>x\n");
    assert Items(s, 1, true) == Some("<item>x");
    assert Items(s, 2, true) == Some("<item>x</item><item>");
  }

  /** With counter advancing, a line, a newline and a further line give two items. */
  lemma ItemsSplitLine(a: string, b: string)
    requires forall k :: 0 <= k < |a| ==> a[k] != '\n' && a[k] != '-'
    requires forall k :: 0 <= k < |b| ==> b[k] != '\n' && b[k] != '-'
    requires |b| > 0
    ensures Items(a + "\n" + b, |a + "\n" + b|, true) == Some("<item>" + a + "</item><item>" + b)
  {
    var s := a + "\n" + b;
    ItemsPlain(s, 0, |a|);
    assert s[0..|a|] == a;
    assert s[|a|] == '\n' && s[|a| + 1] == b[0];
    ItemsPlain(s, |a| + 1, |s|);
    assert s[|a| + 1..|s|] == b;
  }

  /** A stretch without newline or '-' is copied as it is. */
  lemma {:induction false} ItemsPlain(s: string, lo: nat, hi: nat)
    requires lo <= hi <= |s| && Items(s, lo, true).Some?
    requires forall k :: lo <= k < hi ==> s[k] != '\n' && s[k] != '-'
    ensures Items(s, hi, true) == Some(Items(s, lo, true).value + s[lo..hi])
    decreases hi - lo
  {
    if hi > lo {
      ItemsPlain(s, lo, hi - 1);
      var before := Items(s, lo, true).value;
      assert s[lo..hi] == s[lo..hi - 1] + [s[hi - 1]];
      assert before + s[lo..hi] == (before + s[lo..hi - 1]) + [s[hi - 1]];
    } else {
      assert Items(s, lo, true).value + s[lo..hi] == Items(s, lo, true).value;
    }
  }

  // ---------------------------------------------------------------------
  // The "populateselectboxes" request

  datatype Location = Location(rackName: string, startUnit: string, endUnit: string)

  /** The fields of a node that the free-resource search reads. */
  datatype InvNode = InvNode(nodeType: string, spNodeID: string, powerNodeID: string, powerNodePort: string,
                             serialNodeID: string, serialNodePort: string, location: Option<Location>)

  /** The service processors a computer names as its own ("" and "none" name none). */
  function AssignedProcessors(computers: seq<InvNode>): (r: seq<string>)
    ensures forall x :: x in r <==> exists k :: 0 <= k < |computers| && computers[k].spNodeID == x && x != "" && x != "none"
    decreases |computers|
  {
    if |computers| == 0 then []
    else
      var n := |computers| - 1;
      var sp := computers[n].spNodeID;
      assert forall k :: 0 <= k < n ==> computers[..n][k] == computers[k];
      AssignedProcessors(computers[..n]) + (if sp != "" && sp != "none" then [sp] else [])
  }

  /** The ids not in the list, in their order. */
  function Unlisted(ids: seq<string>, used: seq<string>): (r: seq<string>)
    ensures forall x :: x in r <==> x in ids && x !in used
    decreases |ids|
  {
    if |ids| == 0 then []
    else
      var n := |ids| - 1;
      assert ids == ids[..n] + [ids[n]];
      Unlisted(ids[..n], used) + (if ids[n] in used then [] else [ids[n]])
  }

  /** The unassigned service processors. */
  method UnassignedProcessors(processorIDs: seq<string>, computers: seq<InvNode>) returns (r: seq<string>)
    ensures r == Unlisted(processorIDs, AssignedProcessors(computers))
  {
    var used: seq<string> := [];
    for k := 0 to |computers|
      invariant used == AssignedProcessors(computers[..k])
    {
      assert computers[..k + 1][..k] == computers[..k];
      var sp := computers[k].spNodeID;
      if sp != "" && sp != "none" {
        used := used + [sp];
      }
    }
    assert computers[..|computers|] == computers;
    r := [];
    for i := 0 to |processorIDs|
      invariant r == Unlisted(processorIDs[..i], used)
    {
      assert processorIDs[..i + 1][..i] == processorIDs[..i];
      if processorIDs[i] !in used {
        r := r + [processorIDs[i]];
      }
    }
    assert processorIDs[..|processorIDs|] == processorIDs;
  }

  /** The ports of a power switch in use: those of the nodes other than service processors that name it. */
  function AssignedPowerPorts(nodes: seq<InvNode>, switchID: string): (r: seq<string>)
    ensures forall x :: x in r <==> exists k :: (0 <= k < |nodes| && nodes[k].powerNodeID == switchID &&
      nodes[k].nodeType != "serviceprocessor" && nodes[k].powerNodePort == x)
    decreases |nodes|
  {
    if |nodes| == 0 then []
    else
      var n := |nodes| - 1;
      var node := nodes[n];
      assert forall k :: 0 <= k < n ==> nodes[..n][k] == nodes[k];
      AssignedPowerPorts(nodes[..n], switchID) +
        (if node.powerNodeID == switchID && node.nodeType != "serviceprocessor" then [node.powerNodePort] else [])
  }

  /** The ports of a serial server in use. */
  function AssignedSerialPorts(nodes: seq<InvNode>, serialID: string): (r: seq<string>)
    ensures forall x :: x in r <==> exists k :: (0 <= k < |nodes| && nodes[k].serialNodeID == serialID &&
      nodes[k].serialNodePort == x)
    decreases |nodes|
  {
    if |nodes| == 0 then []
    else
      var n := |nodes| - 1;
      var node := nodes[n];
      assert forall k :: 0 <= k < n ==> nodes[..n][k] == nodes[k];
      AssignedSerialPorts(nodes[..n], serialID) + (if node.serialNodeID == serialID then [node.serialNodePort] else [])
  }

  /** The numbers 1..n whose decimal text is not in the list, ascending. */
  function Unassigned(n: int, used: seq<string>): seq<int>
    decreases n
  {
    if n < 1 then []
    else if IntToString(n) in used then Unassigned(n - 1, used)
    else Unassigned(n - 1, used) + [n]
  }

  lemma {:induction false} UnassignedMeaning(n: int, used: seq<string>)
    ensures forall p :: p in Unassigned(n, used) <==> 1 <= p <= n && IntToString(p) !in used
    ensures forall i, j :: 0 <= i < j < |Unassigned(n, used)| ==> Unassigned(n, used)[i] < Unassigned(n, used)[j]
    decreases n
  {
    if n >= 1 {
      UnassignedMeaning(n - 1, used);
      var u := Unassigned(n - 1, used);
      assert forall i :: 0 <= i < |u| ==> u[i] in u;
    }
  }

  /** The loop over range(1, number + 1). */
  method FreeNumbers(number: int, used: seq<string>) returns (r: seq<int>)
    ensures r == Unassigned(number, used)
  {
    r := [];
    var p := 1;
    while p <= number
      invariant 1 <= p <= (if number < 1 then 1 else number + 1)
      invariant r == Unassigned(p - 1, used)
    {
      if IntToString(p) !in used {
        r := r + [p];
      }
      p := p + 1;
    }
    if number < 1 {
      assert Unassigned(number, used) == [];
    }
  }

  /**
   * The free ports of one power switch; None is the exception of int() on
   * its "numberports" attribute.
   */
  method UnassignedPowerPorts(nodes: seq<InvNode>, switchID: string, numberPorts: string) returns (r: Option<seq<int>>)
    ensures r.None? <==> ParseInt(numberPorts).None?
    ensures r.Some? ==> forall p :: p in r.value <==> (1 <= p <= ParseInt(numberPorts).value &&
      forall k :: 0 <= k < |nodes| && nodes[k].powerNodeID == switchID && nodes[k].nodeType != "serviceprocessor" ==>
        nodes[k].powerNodePort != IntToString(p))
    ensures r.Some? ==> forall i, j :: 0 <= i < j < |r.value| ==> r.value[i] < r.value[j]
  {
    var used: seq<string> := [];
    for k := 0 to |nodes|
      invariant used == AssignedPowerPorts(nodes[..k], switchID)
    {
      assert nodes[..k + 1][..k] == nodes[..k];
      if nodes[k].powerNodeID == switchID && nodes[k].nodeType != "serviceprocessor" {
        used := used + [nodes[k].powerNodePort];
      }
    }
    assert nodes[..|nodes|] == nodes;
    var count := ParseInt(numberPorts);
    if count.None? {
      return None;
    }
    var free := FreeNumbers(count.value, used);
    UnassignedMeaning(count.value, used);
    return Some(free);
  }

  /** The free ports of one serial server. */
  method UnassignedSerialPorts(nodes: seq<InvNode>, serialID: string, numberPorts: string) returns (r: Option<seq<int>>)
    ensures r.None? <==> ParseInt(numberPorts).None?
    ensures r.Some? ==> forall p :: p in r.value <==> (1 <= p <= ParseInt(numberPorts).value &&
      forall k :: 0 <= k < |nodes| && nodes[k].serialNodeID == serialID ==> nodes[k].serialNodePort != IntToString(p))
    ensures r.Some? ==> forall i, j :: 0 <= i < j < |r.value| ==> r.value[i] < r.value[j]
  {
    var used: seq<string> := [];
    for k := 0 to |nodes|
      invariant used == AssignedSerialPorts(nodes[..k], serialID)
    {
      assert nodes[..k + 1][..k] == nodes[..k];
      if nodes[k].serialNodeID == serialID {
        used := used + [nodes[k].serialNodePort];
      }
    }
    assert nodes[..|nodes|] == nodes;
    var count := ParseInt(numberPorts);
    if count.None? {
      return None;
    }
    var free := FreeNumbers(count.value, used);
    UnassignedMeaning(count.value, used);
    return Some(free);
  }

  /** str(x) for x in range(a, b + 1). */
  function UnitTexts(a: int, b: int): seq<string>
    decreases b - a
  {
    if b < a then [] else UnitTexts(a, b - 1) + [IntToString(b)]
  }

  lemma {:induction false} UnitTextsMeaning(a: int, b: int, u: int)
    ensures IntToString(u) in UnitTexts(a, b) <==> a <= u <= b
    decreases b - a
  {
    if b >= a {
      UnitTextsMeaning(a, b - 1, u);
      IntToStringInjective(u, b);
    }
  }

  /** The inner loop over range(start, end + 1). */
  method AppendUnits(used: seq<string>, a: int, b: int) returns (r: seq<string>)
    ensures r == used + UnitTexts(a, b)
  {
    r := used;
    var x := a;
    while x <= b
      invariant a <= x <= (if b < a then a else b + 1)
      invariant r == used + UnitTexts(a, x - 1)
      decreases b - x
    {
      assert UnitTexts(a, x) == UnitTexts(a, x - 1) + [IntToString(x)];
      r := r + [IntToString(x)];
      x := x + 1;
    }
  }

  /** The node sits in the rack with a start unit given. */
  predicate Placed(node: InvNode, rackID: string)
  {
    node.location.Some? && node.location.value.rackName == rackID && node.location.value.startUnit != ""
  }

  /** The node occupies unit u of the rack. */
  predicate Covers(node: InvNode, rackID: string, u: int)
  {
    Placed(node, rackID) &&
    ParseInt(node.location.value.startUnit).Some? && ParseInt(node.location.value.endUnit).Some? &&
    ParseInt(node.location.value.startUnit).value <= u <= ParseInt(node.location.value.endUnit).value
  }

  /** The units of a rack in use; None when a placed node's unit is not a number. */
  function AssignedUnits(nodes: seq<InvNode>, rackID: string): Option<seq<string>>
    decreases |nodes|
  {
    if |nodes| == 0 then Some([])
    else
      var n := |nodes| - 1;
      var rest := AssignedUnits(nodes[..n], rackID);
      var node := nodes[n];
      if rest.None? then None
      else if !Placed(node, rackID) then rest
      else
        var s := ParseInt(node.location.value.startUnit);
        var e := ParseInt(node.location.value.endUnit);
        if s.None? || e.None? then None else Some(rest.value + UnitTexts(s.value, e.value))
  }

  lemma {:induction false} AssignedUnitsMeaning(nodes: seq<InvNode>, rackID: string, u: int)
    requires AssignedUnits(nodes, rackID).Some?
    ensures IntToString(u) in AssignedUnits(nodes, rackID).value <==> exists k :: 0 <= k < |nodes| && Covers(nodes[k], rackID, u)
    decreases |nodes|
  {
    if |nodes| > 0 {
      var n := |nodes| - 1;
      AssignedUnitsMeaning(nodes[..n], rackID, u);
      assert forall k :: 0 <= k < n ==> nodes[..n][k] == nodes[k];
      if Placed(nodes[n], rackID) {
        var loc := nodes[n].location.value;
        UnitTextsMeaning(ParseInt(loc.startUnit).value, ParseInt(loc.endUnit).value, u);
      }
    }
  }

  /** AssignedUnits stays None once a prefix is None. */
  lemma {:induction false} AssignedUnitsStayNone(nodes: seq<InvNode>, rackID: string, i: nat)
    requires i <= |nodes| && AssignedUnits(nodes[..i], rackID).None?
    ensures AssignedUnits(nodes, rackID).None?
    decreases |nodes| - i
  {
    if i < |nodes| {
      assert nodes[..i + 1][..i] == nodes[..i];
      AssignedUnitsStayNone(nodes, rackID, i + 1);
    } else {
      assert nodes[..i] == nodes;
    }
  }

  /**
   * The free units of one rack: u is free iff no node placed in the rack
   * covers it. None is the exception of int() on a unit or on the rack's
   * number of units.
   */
  method UnassignedRackUnits(nodes: seq<InvNode>, rackID: string, numberUnits: string) returns (r: Option<seq<int>>)
    ensures r.None? <==> AssignedUnits(nodes, rackID).None? || ParseInt(numberUnits).None?
    ensures r.Some? ==> forall u :: u in r.value <==> (1 <= u <= ParseInt(numberUnits).value &&
      forall k :: 0 <= k < |nodes| ==> !Covers(nodes[k], rackID, u))
    ensures r.Some? ==> forall i, j :: 0 <= i < j < |r.value| ==> r.value[i] < r.value[j]
  {
    var used: seq<string> := [];
    for k := 0 to |nodes|
      invariant AssignedUnits(nodes[..k], rackID) == Some(used)
    {
      assert nodes[..k + 1][..k] == nodes[..k];
      var node := nodes[k];
      if Placed(node, rackID) {
        var s := ParseInt(node.location.value.startUnit);
        var e := ParseInt(node.location.value.endUnit);
        if s.None? || e.None? {
          AssignedUnitsStayNone(nodes, rackID, k + 1);
          return None;
        }
        used := AppendUnits(used, s.value, e.value);
        assert nodes[..k + 1][k] == node;
      }
    }
    assert nodes[..|nodes|] == nodes;
    var count := ParseInt(numberUnits);
    if count.None? {
      return None;
    }
    var free := FreeNumbers(count.value, used);
    UnassignedMeaning(count.value, used);
    forall u
      ensures IntToString(u) in used <==> exists k :: 0 <= k < |nodes| && Covers(nodes[k], rackID, u)
    {
      AssignedUnitsMeaning(nodes, rackID, u);
    }
    return Some(free);
  }
}
