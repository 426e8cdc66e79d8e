// The "Physical Location" tab: its racks, the front/rear view it shows and
// the slot test it draws empty units with.

module PhysicalLocation {
  import opened RackLayout
  import opened HenJs

  class PhysicalLocationTab {
    var theRacks: seq<Rack>
    var maxNumberRackUnits: int
    var currentView: string
    var drewRear: bool
    var rearDraws: nat
    /** The visibility of each rack's front div and rear div. */
    var frontVisibility: seq<string>
    var rearVisibility: seq<string>

    ghost predicate Valid()
      reads this
    {
      |frontVisibility| == |theRacks| && |rearVisibility| == |theRacks|
    }

    function Views(): RackLayout.Views
      reads this
    {
      RackLayout.Views(currentView, drewRear, rearDraws, frontVisibility, rearVisibility)
    }

    /** A new tab: no racks yet, the front view. */
    constructor ()
      ensures Valid() && Views() == FirstViews(0) && theRacks == []
    {
      theRacks := [];
      maxNumberRackUnits := -1;
      currentView := "front";
      drewRear := false;
      rearDraws := 0;
      frontVisibility := [];
      rearVisibility := [];
    }

    /**
     * The location reply has been read: its racks are appended to the tab's,
     * the tallest rack is found and the new racks' divs are drawn.
     */
    method LoadRacks(racks: seq<Rack>)
      requires Valid()
      modifies this
      ensures Valid() && theRacks == old(theRacks) + racks
      ensures Views() == old(Views()).(front := old(frontVisibility) + seq(|racks|, i => ""),
                                       rear := old(rearVisibility) + seq(|racks|, i => ""))
      ensures maxNumberRackUnits >= -1
      ensures forall k :: 0 <= k < |theRacks| ==> theRacks[k].rackHeight <= maxNumberRackUnits
      ensures maxNumberRackUnits == -1 || exists k :: 0 <= k < |theRacks| && theRacks[k].rackHeight == maxNumberRackUnits
    {
      theRacks := theRacks + racks;
      maxNumberRackUnits := MaxRackUnits(theRacks);
      frontVisibility := frontVisibility + seq(|racks|, i => "");
      rearVisibility := rearVisibility + seq(|racks|, i => "");
    }

    /** isSlotEmpty: no node of the rack occupies the slot in the current view. */
    method IsSlotEmpty(rack: Rack, slot: int) returns (r: bool)
      ensures r <==> forall i :: 0 <= i < |rack.nodes| ==> !Covers(rack.nodes[i], slot, currentView)
    {
      r := SlotEmpty(rack.nodes, slot, currentView);
    }

    /** toggleRacks: every rack's div on the current side changes visibility. */
    method ToggleRacks()
      requires Valid()
      modifies this
      ensures Valid() && theRacks == old(theRacks) && maxNumberRackUnits == old(maxNumberRackUnits)
      ensures Views() == RackLayout.ToggleRacks(old(Views()))
    {
      ghost var front := frontVisibility;
      ghost var rear := rearVisibility;
      for i := 0 to |theRacks|
        invariant theRacks == old(theRacks) && maxNumberRackUnits == old(maxNumberRackUnits)
        invariant currentView == old(currentView) && drewRear == old(drewRear) && rearDraws == old(rearDraws)
        invariant |frontVisibility| == |front| && |rearVisibility| == |rear|
        invariant currentView == "front" ==> rearVisibility == rear
        invariant currentView != "front" ==> frontVisibility == front
        invariant currentView == "front" ==> forall k :: 0 <= k < |front| ==>
          frontVisibility[k] == if k < i then ToggleVisible(front[k]) else front[k]
        invariant currentView != "front" ==> forall k :: 0 <= k < |rear| ==>
          rearVisibility[k] == if k < i then ToggleVisible(rear[k]) else rear[k]
      {
        if currentView == "front" {
          frontVisibility := frontVisibility[i := ToggleVisible(frontVisibility[i])];
        } else {
          rearVisibility := rearVisibility[i := ToggleVisible(rearVisibility[i])];
        }
      }
      if currentView == "front" {
        assert frontVisibility == ToggleAll(front);
      } else {
        assert rearVisibility == ToggleAll(rear);
      }
    }

    /** drawRearRacks: the rear racks are drawn; their divs keep their visibility. */
    method DrawRearRacks()
      modifies this
      ensures theRacks == old(theRacks) && maxNumberRackUnits == old(maxNumberRackUnits)
      ensures Views() == old(Views()).(drewRear := true, rearDraws := old(rearDraws) + 1)
    {
      rearDraws := rearDraws + 1;
      drewRear := true;
    }

    /** toggleViews: hide the racks shown, then show the other side. */
    method ToggleViews()
      requires Valid()
      modifies this
      ensures Valid() && theRacks == old(theRacks) && maxNumberRackUnits == old(maxNumberRackUnits)
      ensures Views() == ToggleViewsStep(old(Views()))
    {
      ToggleRacks();
      if currentView == "front" {
        if !drewRear {
          currentView := "rear";
          DrawRearRacks();
        } else {
          currentView := "rear";
          ToggleRacks();
        }
      } else {
        currentView := "front";
        ToggleRacks();
      }
    }
  }
}
