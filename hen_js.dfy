// The common GUI classes and helpers of the HEN web interface: labels,
// XML attributes, users, rack nodes and the visibility bookkeeping every tab
// inherits.

module HenJs {
  import opened Common
  import opened JsCommon

  // ---------------------------------------------------------------------
  // getAttributeValue

  /**
   * The value of an attribute of an XML tag, None (null) when there is no
   * tag or the tag lacks the attribute. An attribute whose value is empty is
   * still present: its Attr object is truthy.
   */
  function GetAttributeValue(obj: Option<map<string, string>>, attribute: string): (r: Option<string>)
    ensures r.Some? <==> obj.Some? && attribute in obj.value
    ensures r.Some? ==> r.value == obj.value[attribute]
  {
    if obj.None? then None
    else if attribute in obj.value then Some(obj.value[attribute])
    else None
  }

  /** Setting an attribute and reading it back gives its value, whatever it is, and leaves the others alone. */
  lemma AttributeRoundTrip(attributes: map<string, string>, name: string, value: string, other: string)
    requires other != name
    ensures GetAttributeValue(Some(attributes[name := value]), name) == Some(value)
    ensures GetAttributeValue(Some(attributes[name := value]), other) == GetAttributeValue(Some(attributes), other)
  {
  }

  // ---------------------------------------------------------------------
  // trimLabel

  /** The index of the first decimal digit of s, |s| when it has none. */
  function FirstDigit(s: string): (d: nat)
    ensures d <= |s|
    ensures forall k :: 0 <= k < d ==> !IsDigit(s[k])
    ensures d < |s| ==> IsDigit(s[d])
    decreases |s|
  {
    if |s| == 0 then 0
    else if IsDigit(s[0]) then 0
    else 1 + FirstDigit(s[1..])
  }

  function Max(a: int, b: int): int
  {
    if a >= b then a else b
  }

  /**
   * Shortens a label of the form [elementName][number] to labelLength
   * characters by cutting the end of its element name. The number is
   * always kept whole, so the result is longer than labelLength when the
   * number alone is longer.
   */
  method TrimLabel(name: string, labelLength: int) returns (r: string)
    ensures |name| <= labelLength ==> r == name
    ensures |name| > labelLength ==> |r| == Max(labelLength, |name| - FirstDigit(name))
    ensures |name| > labelLength ==>
      (var keep := |r| - (|name| - FirstDigit(name));
       0 <= keep <= FirstDigit(name) && r == name[..keep] + name[FirstDigit(name)..])
  {
    if |name| <= labelLength {
      return name;
    }
    var i := 0;
    while i < |name|
      invariant 0 <= i <= |name|
      invariant forall k :: 0 <= k < i ==> !IsDigit(name[k])
    {
      var c := name[i];
      if !(c < '0' || c > '9') {
        break;
      }
      i := i + 1;
    }
    FirstDigitIsFirst(name, i);
    var numberCharsToTrim := |name| - labelLength;
    r := Substring(name, 0, i - numberCharsToTrim) + Substring(name, i, |name|);
  }

  /** An index before which no digit occurs and at which a digit (or the end) stands is the first digit. */
  lemma {:induction false} FirstDigitIsFirst(s: string, i: nat)
    requires i <= |s|
    requires forall k :: 0 <= k < i ==> !IsDigit(s[k])
    requires i < |s| ==> IsDigit(s[i])
    ensures FirstDigit(s) == i
  {
  }

  // ---------------------------------------------------------------------
  // User

  /** A user is a manager when "henmanager" is among their groups. */
  method IsManager(groups: seq<string>) returns (r: bool)
    ensures r <==> "henmanager" in groups
  {
    for i := 0 to |groups|
      invariant "henmanager" !in groups[..i]
    {
      if groups[i] == "henmanager" {
        return true;
      }
      assert groups[..i + 1] == groups[..i] + [groups[i]];
    }
    assert groups[..|groups|] == groups;
    return false;
  }

  // ---------------------------------------------------------------------
  // Node and Rack

  /** A JavaScript value that a rack unit can hold: null, NaN, a finite number or an infinity. */
  datatype JsUnit = NullUnit | NaNUnit | UnitNumber(n: real) | InfiniteUnit(negative: bool)

  /** Number(x) of an attribute value: null is 0, text is what Number reads from it. */
  function NumberOf(x: Option<string>): (u: JsUnit)
    ensures u != NullUnit
    ensures x.None? ==> u == UnitNumber(0.0)
    ensures u == NaNUnit <==> x.Some? && NumberJs(x.value).NaN?
    ensures u.InfiniteUnit? <==> x.Some? && NumberJs(x.value).Infinite?
    ensures x.Some? && ParseInt(x.value).Some? ==> u == UnitNumber(ParseInt(x.value).value as real)
  {
    if x.None? then UnitNumber(0.0)
    else
      match NumberJs(x.value)
      case NaN => NaNUnit
      case Finite(v) => UnitNumber(v)
      case Infinite(neg) => InfiniteUnit(neg)
  }

  /** A node in a rack: the units it spans and where it sits ("front", "rear", "both", "rearleft1", ...). */
  datatype RackNode = RackNode(nodeID: string, nodeType: string, startUnit: JsUnit, endUnit: JsUnit, position: string)

  /** A rack: its position in the row of racks (from 1), its height in units, its width, and its nodes. */
  datatype Rack = Rack(rackID: string, rackPosition: int, rackHeight: int, rackWidth: int, nodes: seq<RackNode>, rearRackWidth: int)

  /**
   * The Node constructor as written: the start unit is null when absent,
   * but the end unit is assigned Number(endUnit) a second time after its
   * null test, so an absent end unit becomes 0.
   */
  function MakeNode(nodeID: string, nodeType: string, startUnit: Option<string>, endUnit: Option<string>, position: string): (n: RackNode)
    ensures n.nodeID == nodeID && n.nodeType == nodeType && n.position == position
    ensures n.startUnit == (if startUnit.None? then NullUnit else NumberOf(startUnit))
    ensures n.endUnit == NumberOf(endUnit)
  {
    var s := if startUnit != None then NumberOf(startUnit) else NullUnit;
    var e := if endUnit != None then NumberOf(endUnit) else NullUnit;
    var e' := NumberOf(endUnit);
    RackNode(nodeID, nodeType, s, e', position)
  }

  /** As written, a node built without an end unit never has a null one. */
  lemma NullEndUnitIsZero(nodeID: string, nodeType: string, startUnit: Option<string>, position: string)
    ensures MakeNode(nodeID, nodeType, startUnit, None, position).endUnit == UnitNumber(0.0)
  {
  }

  /** The constructor as its null tests intend: an absent end unit stays null. */
  function IntendedNode(nodeID: string, nodeType: string, startUnit: Option<string>, endUnit: Option<string>, position: string): (n: RackNode)
    ensures n.nodeID == nodeID && n.nodeType == nodeType && n.position == position
    ensures n.endUnit == NullUnit <==> endUnit.None?
    ensures n.startUnit == NullUnit <==> startUnit.None?
  {
    RackNode(nodeID, nodeType,
             if startUnit != None then NumberOf(startUnit) else NullUnit,
             if endUnit != None then NumberOf(endUnit) else NullUnit,
             position)
  }

  /** The two constructors differ only for a node without an end unit. */
  lemma IntendedAgreesWhenEndGiven(nodeID: string, nodeType: string, startUnit: Option<string>, endUnit: string, position: string)
    ensures IntendedNode(nodeID, nodeType, startUnit, Some(endUnit), position)
         == MakeNode(nodeID, nodeType, startUnit, Some(endUnit), position)
  {
  }

  // ---------------------------------------------------------------------
  // Tab.setVisibility

  /**
   * The state setVisibility works on: whether the tab is still to be shown
   * for the first time, how often initTab has run, the visibility of the
   * tab's main div, the visibility of each registered div (visibilityDivs),
   * and the visibilities saved when the tab was hidden.
   */
  datatype TabState = TabState(notYetShown: bool, initRuns: nat, main: string, divs: seq<string>, saved: seq<string>)

  /** A tab as created: never shown, no div registered, nothing saved. */
  function NewTab(): TabState
  {
    TabState(true, 0, "", [], [])
  }

  /**
   * The divs after a show: each div with a saved visibility gets it back;
   * a div registered after the hide has no saved entry, and assigning it
   * undefined leaves its visibility as it is.
   */
  function Restored(divs: seq<string>, saved: seq<string>): (r: seq<string>)
    ensures |r| == |divs|
    ensures forall i :: 0 <= i < |divs| ==> r[i] == if i < |saved| then saved[i] else divs[i]
  {
    seq(|divs|, i requires 0 <= i < |divs| => if i < |saved| then saved[i] else divs[i])
  }

  function AllHidden(n: nat): (r: seq<string>)
    ensures |r| == n && forall i :: 0 <= i < n ==> r[i] == "hidden"
  {
    seq(n, i => "hidden")
  }

  /**
   * One call of setVisibility: the first show runs initTab; a hide saves
   * the divs' visibilities (unless some are saved already) and hides them;
   * any other visibility, except on the show that ran initTab, restores them
   * and forgets what was saved.
   */
  function SetVisibilityStep(t: TabState, visibility: string): (r: TabState)
  {
    var runInit := t.notYetShown && visibility == "visible";
    var t1 := if runInit then t.(notYetShown := false, initRuns := t.initRuns + 1) else t;
    var t2 := t1.(main := visibility);
    if visibility == "hidden" then
      if |t2.saved| == 0 then t2.(saved := t2.divs, divs := AllHidden(|t2.divs|)) else t2
    else if !runInit then t2.(divs := Restored(t2.divs, t2.saved), saved := [])
    else t2
  }

  /** A run of setVisibility calls. */
  function Run(t: TabState, calls: seq<string>): TabState
    decreases |calls|
  {
    if |calls| == 0 then t else SetVisibilityStep(Run(t, calls[..|calls| - 1]), calls[|calls| - 1])
  }

  /** initTab has run once if the tab was still to be shown and is now shown. */
  ghost predicate InitCounted(t: TabState)
  {
    t.initRuns == if t.notYetShown then 0 else 1
  }

  /** From a new tab, initTab runs exactly once, on the first "visible", and never before. */
  lemma {:induction false} InitRunsOnce(calls: seq<string>)
    ensures InitCounted(Run(NewTab(), calls))
    ensures Run(NewTab(), calls).notYetShown <==> "visible" !in calls
    decreases |calls|
  {
    if |calls| > 0 {
      var prefix := calls[..|calls| - 1];
      InitRunsOnce(prefix);
      assert calls == prefix + [calls[|calls| - 1]];
    }
  }

  /** Hiding an already shown tab and showing it again restores every registered div. */
  lemma HideThenShowRestores(t: TabState, visibility: string)
    requires !t.notYetShown && t.saved == [] && visibility != "hidden"
    ensures SetVisibilityStep(SetVisibilityStep(t, "hidden"), visibility).divs == t.divs
    ensures SetVisibilityStep(SetVisibilityStep(t, "hidden"), visibility).saved == []
  {
    var h := SetVisibilityStep(t, "hidden");
    assert h.saved == t.divs;
    var s := SetVisibilityStep(h, visibility);
    assert s.divs == Restored(h.divs, t.divs);
  }

  /** A second hide changes nothing: the first saved visibilities are kept. */
  lemma HideIdempotent(t: TabState)
    ensures SetVisibilityStep(SetVisibilityStep(t, "hidden"), "hidden") == SetVisibilityStep(t, "hidden")
  {
    var h := SetVisibilityStep(t, "hidden");
    if |t.saved| == 0 && |t.divs| == 0 {
      assert h.divs == [] && h.saved == [];
    }
  }

  /** A tab with the bookkeeping of Tab: visibilityDivs and savedVisibility hold visibilities. */
  class Tab {
    var notYetShown: bool
    var initRuns: nat
    var mainVisibility: string
    var visibilityDivs: seq<string>
    var savedVisibility: seq<string>

    function State(): TabState
      reads this
    {
      TabState(notYetShown, initRuns, mainVisibility, visibilityDivs, savedVisibility)
    }

    constructor ()
      ensures State() == NewTab()
    {
      notYetShown := true;
      initRuns := 0;
      mainVisibility := "";
      visibilityDivs := [];
      savedVisibility := [];
    }

    /** Registers a div whose visibility the tab saves and restores. */
    method AddVisibilityDiv(visibility: string)
      modifies this
      ensures State() == old(State()).(divs := old(visibilityDivs) + [visibility])
    {
      visibilityDivs := visibilityDivs + [visibility];
    }

    method SetVisibility(visibility: string)
      modifies this
      ensures State() == SetVisibilityStep(old(State()), visibility)
    {
      var runInit := false;
      if notYetShown && visibility == "visible" {
        notYetShown := false;
        initRuns := initRuns + 1;
        runInit := true;
      }
      mainVisibility := visibility;
      ghost var shown := notYetShown;
      ghost var runs := initRuns;
      ghost var before := visibilityDivs;
      ghost var kept := savedVisibility;
      if visibility == "hidden" {
        if |savedVisibility| == 0 {
          for i := 0 to |visibilityDivs|
            invariant visibilityDivs == before && savedVisibility == before[..i]
            invariant notYetShown == shown && initRuns == runs && mainVisibility == visibility
          {
            savedVisibility := savedVisibility + [visibilityDivs[i]];
          }
          assert before[..|before|] == before;
          for i := 0 to |visibilityDivs|
            invariant |visibilityDivs| == |before| && savedVisibility == before
            invariant notYetShown == shown && initRuns == runs && mainVisibility == visibility
            invariant forall k :: 0 <= k < |before| ==> visibilityDivs[k] == if k < i then "hidden" else before[k]
          {
            visibilityDivs := visibilityDivs[i := visibility];
          }
          assert visibilityDivs == AllHidden(|before|);
        }
      } else if !runInit {
        for i := 0 to |visibilityDivs|
          invariant |visibilityDivs| == |before| && savedVisibility == kept
          invariant notYetShown == shown && initRuns == runs && mainVisibility == visibility
          invariant forall k :: 0 <= k < |before| ==>
            visibilityDivs[k] == if k < i && k < |kept| then kept[k] else before[k]
        {
          if i < |savedVisibility| {
            visibilityDivs := visibilityDivs[i := savedVisibility[i]];
          }
        }
        assert visibilityDivs == Restored(before, kept);
        savedVisibility := [];
      }
    }
  }
}
