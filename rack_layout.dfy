// Rack drawing logic shared by the "Physical Location" and "Status" tabs:
// which unit slots a rack's nodes occupy, where the vertical rear slots
// sit, the tallest rack, the order racks are drawn in and the front/rear
// view switch.

module RackLayout {
  import opened Common
  import opened JsCommon
  import opened HenJs

  // ---------------------------------------------------------------------
  // Slot occupancy

  /** JavaScript's slot >= unit: null compares as 0, NaN compares false and only -Infinity is below every slot. */
  predicate AtLeast(slot: int, u: JsUnit)
  {
    match u
    case NullUnit => slot >= 0
    case NaNUnit => false
    case UnitNumber(n) => slot as real >= n
    case InfiniteUnit(negative) => negative
  }

  /** JavaScript's slot <= unit. */
  predicate AtMost(slot: int, u: JsUnit)
  {
    match u
    case NullUnit => slot <= 0
    case NaNUnit => false
    case UnitNumber(n) => slot as real <= n
    case InfiniteUnit(negative) => !negative
  }

  /** A node occupies a unit slot in a view when the slot lies in its units and it faces that view or both. */
  predicate Covers(node: RackNode, slot: int, view: string)
  {
    AtLeast(slot, node.startUnit) && AtMost(slot, node.endUnit)
    && (Contains(node.position, view) || node.position == "both")
  }

  /** For a node with numeric units, covering is the plain interval test. */
  lemma CoversNumbered(node: RackNode, slot: int, view: string)
    requires node.startUnit.UnitNumber? && node.endUnit.UnitNumber?
    ensures Covers(node, slot, view) <==>
      node.startUnit.n <= slot as real <= node.endUnit.n && (Contains(node.position, view) || node.position == "both")
  {
  }

  /** A node whose units are not numbers occupies no slot from 1 upwards. */
  lemma NaNCoversNothing(node: RackNode, slot: int, view: string)
    requires node.startUnit.NaNUnit? || node.endUnit.NaNUnit? || (node.endUnit.NullUnit? && slot >= 1)
    ensures !Covers(node, slot, view)
  {
  }

  /** isSlotEmpty: a unit slot is empty when none of the nodes occupies it in the view. */
  method SlotEmpty(nodes: seq<RackNode>, slot: int, view: string) returns (r: bool)
    ensures r <==> forall i :: 0 <= i < |nodes| ==> !Covers(nodes[i], slot, view)
  {
    for i := 0 to |nodes|
      invariant forall k :: 0 <= k < i ==> !Covers(nodes[k], slot, view)
    {
      FindIffContains(nodes[i].position, view);
      if AtLeast(slot, nodes[i].startUnit) && AtMost(slot, nodes[i].endUnit)
         && (Find(nodes[i].position, view) != -1 || nodes[i].position == "both") {
        return false;
      }
    }
    return true;
  }

  /** isVerticalSlotEmpty: a vertical slot is empty when no node's position names it. */
  method VerticalSlotEmpty(nodes: seq<RackNode>, slot: string) returns (r: bool)
    ensures r <==> forall i :: 0 <= i < |nodes| ==> !Contains(nodes[i].position, slot)
  {
    for i := 0 to |nodes|
      invariant forall k :: 0 <= k < i ==> !Contains(nodes[k].position, slot)
    {
      FindIffContains(nodes[i].position, slot);
      if Find(nodes[i].position, slot) != -1 {
        return false;
      }
    }
    return true;
  }

  // ---------------------------------------------------------------------
  // Vertical rear slots

  /** The width in pixels of a vertical unit. */
  const VERTICAL_UNIT_WIDTH: int := 12

  /**
   * The x position of a vertical rear slot of a rack drawn at initialXPos
   * whose horizontal part is rackWidth wide; None (undefined) for any other
   * slot name.
   */
  function VerticalUnitXPos(initialXPos: int, slot: string, rackWidth: int): (x: Option<int>)
    ensures x.Some? <==> slot in ["rearleft1", "rearleft2", "rearright1", "rearright2"]
  {
    if slot == "rearleft1" then Some(initialXPos)
    else if slot == "rearleft2" then Some(initialXPos + VERTICAL_UNIT_WIDTH)
    else if slot == "rearright1" then Some(initialXPos + 2 * VERTICAL_UNIT_WIDTH + rackWidth)
    else if slot == "rearright2" then Some(initialXPos + 3 * VERTICAL_UNIT_WIDTH + rackWidth)
    else None
  }

  /**
   * The rear of a rack is tiled without gap or overlap: two vertical slots
   * on the left, the horizontal units (drawn 2 vertical widths in, rearRackWidth
   * wide) and two vertical slots on the right, spanning the rack's full width
   * rearRackWidth + 4 vertical widths.
   */
  lemma RearLayoutTiles(x: int, rearRackWidth: int)
    requires rearRackWidth >= 0
    ensures VerticalUnitXPos(x, "rearleft1", rearRackWidth) == Some(x)
    ensures VerticalUnitXPos(x, "rearleft2", rearRackWidth).value == VerticalUnitXPos(x, "rearleft1", rearRackWidth).value + VERTICAL_UNIT_WIDTH
    ensures VerticalUnitXPos(x, "rearleft2", rearRackWidth).value + VERTICAL_UNIT_WIDTH == x + 2 * VERTICAL_UNIT_WIDTH
    ensures VerticalUnitXPos(x, "rearright1", rearRackWidth).value == x + 2 * VERTICAL_UNIT_WIDTH + rearRackWidth
    ensures VerticalUnitXPos(x, "rearright2", rearRackWidth).value == VerticalUnitXPos(x, "rearright1", rearRackWidth).value + VERTICAL_UNIT_WIDTH
    ensures VerticalUnitXPos(x, "rearright2", rearRackWidth).value + VERTICAL_UNIT_WIDTH == x + rearRackWidth + 4 * VERTICAL_UNIT_WIDTH
  {
  }

  // ---------------------------------------------------------------------
  // Tallest rack

  /** maxNumberRackUnits: the greatest rack height, -1 when there is no rack (or every height is below -1). */
  method MaxRackUnits(racks: seq<Rack>) returns (r: int)
    ensures r >= -1
    ensures forall k :: 0 <= k < |racks| ==> racks[k].rackHeight <= r
    ensures r == -1 || exists k :: 0 <= k < |racks| && racks[k].rackHeight == r
  {
    r := -1;
    for i := 0 to |racks|
      invariant r >= -1
      invariant forall k :: 0 <= k < i ==> racks[k].rackHeight <= r
      invariant r == -1 || exists k :: 0 <= k < i && racks[k].rackHeight == r
    {
      if racks[i].rackHeight > r {
        r := racks[i].rackHeight;
      }
    }
  }

  // ---------------------------------------------------------------------
  // updateRackGUI: the rows a new node spans

  /** The highest and lowest row of a range whose ends are given in either order, and its height. */
  datatype RowSpan = RowSpan(highest: Option<int>, lowest: Option<int>, height: Option<int>)

  /**
   * The span of rows between the two selected units, read with parseInt;
   * a NaN end makes the comparison false, and NaN spreads to the height.
   */
  function RackRowSpan(rackStart: string, rackEnd: string): (r: RowSpan)
    ensures ParseIntJs(rackStart).Some? && ParseIntJs(rackEnd).Some? ==>
      r.highest.Some? && r.lowest.Some? && r.height.Some?
      && r.highest.value >= r.lowest.value
      && r.height.value == r.highest.value - r.lowest.value + 1
      && multiset{r.highest.value, r.lowest.value} == multiset{ParseIntJs(rackStart).value, ParseIntJs(rackEnd).value}
    ensures ParseIntJs(rackStart).None? || ParseIntJs(rackEnd).None? ==> r.height.None?
  {
    var a := ParseIntJs(rackStart);
    var b := ParseIntJs(rackEnd);
    var (hi, lo) := if a.Some? && b.Some? && a.value >= b.value then (a, b) else (b, a);
    RowSpan(hi, lo, if hi.Some? && lo.Some? then Some(hi.value - lo.value + 1) else None)
  }

  // ---------------------------------------------------------------------
  // drawFrontRacks: the order racks are drawn in

  /** The indices k < j of the racks at position p, in index order. */
  function AtPosition(racks: seq<Rack>, p: int, j: nat): (ks: seq<nat>)
    requires j <= |racks|
    ensures forall a :: 0 <= a < |ks| ==> ks[a] < j && racks[ks[a]].rackPosition == p
    ensures forall k :: 0 <= k < j && racks[k].rackPosition == p ==> k in ks
    ensures forall a, b :: 0 <= a < b < |ks| ==> ks[a] < ks[b]
  {
    if j == 0 then []
    else if racks[j - 1].rackPosition == p then AtPosition(racks, p, j - 1) + [j - 1]
    else AtPosition(racks, p, j - 1)
  }

  /** The racks drawn by the first i rounds of the outer loop: those at positions 1..i, position by position. */
  function DrawnUpTo(racks: seq<Rack>, i: nat): seq<nat>
  {
    if i == 0 then [] else DrawnUpTo(racks, i - 1) + AtPosition(racks, i, |racks|)
  }

  /** The indices of the racks in the order drawFrontRacks draws them. */
  method FrontRackOrder(racks: seq<Rack>) returns (order: seq<nat>)
    ensures order == DrawnUpTo(racks, |racks|)
  {
    order := [];
    for i := 0 to |racks|
      invariant order == DrawnUpTo(racks, i)
    {
      var atPosition := RacksAt(racks, i + 1);
      order := order + atPosition;
    }
  }

  /** The inner loop of drawFrontRacks: the racks whose position is p. */
  method RacksAt(racks: seq<Rack>, p: int) returns (ks: seq<nat>)
    ensures ks == AtPosition(racks, p, |racks|)
  {
    ks := [];
    for j := 0 to |racks|
      invariant ks == AtPosition(racks, p, j)
    {
      if racks[j].rackPosition == p {
        ks := ks + [j];
      }
    }
  }

  /** What the drawing order promises: racks go left to right by rackPosition. */
  ghost predicate DrawnInOrder(racks: seq<Rack>, order: seq<nat>, i: nat)
  {
    (forall a :: 0 <= a < |order| ==> order[a] < |racks| && 1 <= racks[order[a]].rackPosition <= i)
    && (forall a, b :: 0 <= a < b < |order| ==> racks[order[a]].rackPosition <= racks[order[b]].rackPosition)
    && (forall a, b :: 0 <= a < b < |order| ==> order[a] != order[b])
    && (forall k :: 0 <= k < |racks| && 1 <= racks[k].rackPosition <= i ==> k in order)
  }

  /**
   * The racks are drawn in ascending rackPosition order, each once; a rack
   * is drawn exactly when its position lies between 1 and the number of racks.
   */
  lemma {:induction false} FrontOrderAscending(racks: seq<Rack>, i: nat)
    ensures DrawnInOrder(racks, DrawnUpTo(racks, i), i)
  {
    if i > 0 {
      FrontOrderAscending(racks, i - 1);
      var before := DrawnUpTo(racks, i - 1);
      var now := AtPosition(racks, i, |racks|);
      var order := before + now;
      assert order == DrawnUpTo(racks, i);
      forall a, b | 0 <= a < b < |order|
        ensures racks[order[a]].rackPosition <= racks[order[b]].rackPosition && order[a] != order[b]
      {
        if b < |before| {
          assert order[a] == before[a] && order[b] == before[b];
        } else if a < |before| {
          assert order[a] == before[a] && order[b] == now[b - |before|];
        } else {
          assert order[a] == now[a - |before|] && order[b] == now[b - |before|];
        }
      }
      forall k | 0 <= k < |racks| && 1 <= racks[k].rackPosition <= i
        ensures k in order
      {
        if racks[k].rackPosition < i {
          assert k in before;
        } else {
          assert k in now;
        }
      }
    }
  }

  // ---------------------------------------------------------------------
  // Switching between the front and rear views

  /** toggleVisibleByElement: a visible element (or one with no visibility set) is hidden, any other shown. */
  function ToggleVisible(visibility: string): string
  {
    if visibility == "visible" || visibility == "" then "hidden" else "visible"
  }

  predicate Shown(visibility: string)
  {
    visibility == "visible" || visibility == ""
  }

  function ToggleAll(vs: seq<string>): (r: seq<string>)
    ensures |r| == |vs| && forall i :: 0 <= i < |vs| ==> r[i] == ToggleVisible(vs[i])
  {
    seq(|vs|, i requires 0 <= i < |vs| => ToggleVisible(vs[i]))
  }

  /**
   * The view a tab shows: front or rear, whether (and how often) the rear
   * racks were drawn, and the visibility of each rack's front and rear div.
   */
  datatype Views = Views(view: string, drewRear: bool, rearDraws: nat, front: seq<string>, rear: seq<string>)

  /** The views once the racks are drawn: the front of every rack, nothing of the rear yet. */
  function FirstViews(racks: nat): Views
  {
    Views("front", false, 0, seq(racks, i => ""), seq(racks, i => ""))
  }

  /** toggleRacks: the divs of the current view change visibility. */
  function ToggleRacks(v: Views): Views
  {
    if v.view == "front" then v.(front := ToggleAll(v.front)) else v.(rear := ToggleAll(v.rear))
  }

  /** toggleViews: hide the current racks, then show the other side, drawing the rear the first time. */
  function ToggleViewsStep(v: Views): Views
  {
    var hidden := ToggleRacks(v);
    if v.view == "front" then
      if !v.drewRear then hidden.(view := "rear", drewRear := true, rearDraws := v.rearDraws + 1)
      else ToggleRacks(hidden.(view := "rear"))
    else ToggleRacks(hidden.(view := "front"))
  }

  /** Exactly the racks of the current view are visible, and the rear has been drawn at most once. */
  ghost predicate ShowsCurrentView(v: Views)
  {
    (v.view == "front" || v.view == "rear")
    && |v.front| == |v.rear|
    && v.rearDraws == (if v.drewRear then 1 else 0)
    && (forall i :: 0 <= i < |v.front| ==> (Shown(v.front[i]) <==> v.view == "front"))
    && (forall i :: 0 <= i < |v.rear| ==> (Shown(v.rear[i]) <==> (v.view == "rear" || !v.drewRear)))
    && (!v.drewRear ==> v.view == "front")
  }

  lemma FirstViewsShowFront(racks: nat)
    ensures ShowsCurrentView(FirstViews(racks))
  {
  }

  /** Toggling alternates front and rear, draws the rear only the first time, and keeps exactly the current side visible. */
  lemma ToggleViewsKeepsShowing(v: Views)
    requires ShowsCurrentView(v)
    ensures ShowsCurrentView(ToggleViewsStep(v))
    ensures ToggleViewsStep(v).view == if v.view == "front" then "rear" else "front"
    ensures ToggleViewsStep(v).drewRear
    ensures ToggleViewsStep(v).rearDraws == 1
  {
  }
}
