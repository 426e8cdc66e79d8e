// The "Status" tab: the colours that show a node's status and its sensors'
// overall status, and the tab's own racks, slot test and view switch.

module Status {
  import opened Common
  import opened JsCommon
  import opened HenJs
  import opened RackLayout

  // ---------------------------------------------------------------------
  // Status colours

  const OFF: string := "white"
  const NORMAL: string := "lightblue"
  const PALE_NORMAL: string := "#E0FFFF"
  const WARNING: string := "orange"
  const CRITICAL: string := "red"
  const ONLINE: string := "green"
  const OFFLINE: string := "maroon"
  const UNKNOWN: string := "lightgrey"

  /** The text colour of a node given the status attribute of its nodestatus entry. */
  function NodeStatusColor(status: string): (c: string)
    ensures c == ONLINE <==> ParseIntJs(status) == Some(1)
    ensures c == OFFLINE <==> ParseIntJs(status) == Some(0)
    ensures c == UNKNOWN <==> ParseIntJs(status) != Some(0) && ParseIntJs(status) != Some(1)
  {
    var stat := ParseIntJs(status);
    if stat == Some(1) then ONLINE
    else if stat == Some(0) then OFFLINE
    else UNKNOWN
  }

  /**
   * The background colour of a node given the overallstatus attribute of its
   * nodereading and its text colour, as written: the test for an offline
   * node in a normal state sits in the default branch, after the background
   * has been set to OFF, so it never holds.
   */
  function OverallStatusColor(overallStatus: string, textColor: string): (c: string)
    ensures c == NORMAL <==> ParseIntJs(overallStatus) == Some(0)
    ensures c == WARNING <==> ParseIntJs(overallStatus) == Some(1)
    ensures c == CRITICAL <==> ParseIntJs(overallStatus) == Some(2)
    ensures c == OFF <==> ParseIntJs(overallStatus) !in {Some(0), Some(1), Some(2)}
  {
    var stat := ParseIntJs(overallStatus);
    if stat == Some(0) then NORMAL
    else if stat == Some(1) then WARNING
    else if stat == Some(2) then CRITICAL
    else
      var background := OFF;
      if textColor == OFFLINE && background == NORMAL then PALE_NORMAL else background
  }

  /** As written, no node is ever coloured PALE_NORMAL: an offline node in a normal state stays NORMAL. */
  lemma PaleNormalNeverAssigned(overallStatus: string, textColor: string)
    ensures OverallStatusColor(overallStatus, textColor) != PALE_NORMAL
    ensures OverallStatusColor("0", OFFLINE) == NORMAL
  {
    ParseIntJsOfIntToString(0);
    assert IntToString(0) == "0";
  }

  /** The colouring the PALE_NORMAL test evidently intends: a normal but offline node is pale. */
  function IntendedStatusColor(overallStatus: string, textColor: string): (c: string)
    ensures c == PALE_NORMAL <==> ParseIntJs(overallStatus) == Some(0) && textColor == OFFLINE
    ensures c != PALE_NORMAL ==> c == OverallStatusColor(overallStatus, textColor)
  {
    var background := OverallStatusColor(overallStatus, textColor);
    if textColor == OFFLINE && background == NORMAL then PALE_NORMAL else background
  }

  // ---------------------------------------------------------------------
  // The tab's racks

  class StatusTab {
    var theTempRacks: seq<Rack>
    /** null until the rack reply has been read. */
    var tempMaxNumberRackUnits: Option<int>
    var tempCurrentView: string
    var tempDrewRear: bool
    var rearDraws: nat
    /** How many node status requests have been sent. */
    var statusRequests: nat
    var frontVisibility: seq<string>
    var rearVisibility: seq<string>

    ghost predicate Valid()
      reads this
    {
      |frontVisibility| == |theTempRacks| && |rearVisibility| == |theTempRacks|
    }

    function Views(): RackLayout.Views
      reads this
    {
      RackLayout.Views(tempCurrentView, tempDrewRear, rearDraws, frontVisibility, rearVisibility)
    }

    constructor ()
      ensures Valid() && Views() == FirstViews(0) && theTempRacks == []
      ensures tempMaxNumberRackUnits == None && statusRequests == 0
    {
      theTempRacks := [];
      tempMaxNumberRackUnits := None;
      tempCurrentView := "front";
      tempDrewRear := false;
      rearDraws := 0;
      statusRequests := 0;
      frontVisibility := [];
      rearVisibility := [];
    }

    /** The rack reply has been read: its racks are appended, the tallest found and the new racks drawn. */
    method LoadTempRacks(racks: seq<Rack>)
      requires Valid()
      modifies this
      ensures Valid() && theTempRacks == old(theTempRacks) + racks && statusRequests == old(statusRequests)
      ensures Views() == old(Views()).(front := old(frontVisibility) + seq(|racks|, i => ""),
                                       rear := old(rearVisibility) + seq(|racks|, i => ""))
      ensures tempMaxNumberRackUnits.Some? && tempMaxNumberRackUnits.value >= -1
      ensures forall k :: 0 <= k < |theTempRacks| ==> theTempRacks[k].rackHeight <= tempMaxNumberRackUnits.value
      ensures tempMaxNumberRackUnits.value == -1
           || exists k :: 0 <= k < |theTempRacks| && theTempRacks[k].rackHeight == tempMaxNumberRackUnits.value
    {
      theTempRacks := theTempRacks + racks;
      var m := MaxRackUnits(theTempRacks);
      tempMaxNumberRackUnits := Some(m);
      frontVisibility := frontVisibility + seq(|racks|, i => "");
      rearVisibility := rearVisibility + seq(|racks|, i => "");
    }

    /** isTempSlotEmpty: no node of the rack occupies the slot in the view the tab shows. */
    method IsTempSlotEmpty(rack: Rack, slot: int) returns (r: bool)
      ensures r <==> forall i :: 0 <= i < |rack.nodes| ==> !Covers(rack.nodes[i], slot, tempCurrentView)
    {
      r := SlotEmpty(rack.nodes, slot, tempCurrentView);
    }

    /** toggleTempRacks: every rack's div on the current side changes visibility. */
    method ToggleTempRacks()
      requires Valid()
      modifies this
      ensures Valid() && theTempRacks == old(theTempRacks) && statusRequests == old(statusRequests)
      ensures tempMaxNumberRackUnits == old(tempMaxNumberRackUnits)
      ensures Views() == RackLayout.ToggleRacks(old(Views()))
    {
      ghost var front := frontVisibility;
      ghost var rear := rearVisibility;
      for i := 0 to |theTempRacks|
        invariant theTempRacks == old(theTempRacks) && statusRequests == old(statusRequests)
        invariant tempMaxNumberRackUnits == old(tempMaxNumberRackUnits)
        invariant tempCurrentView == old(tempCurrentView) && tempDrewRear == old(tempDrewRear) && rearDraws == old(rearDraws)
        invariant |frontVisibility| == |front| && |rearVisibility| == |rear|
        invariant tempCurrentView == "front" ==> rearVisibility == rear
        invariant tempCurrentView != "front" ==> frontVisibility == front
        invariant tempCurrentView == "front" ==> forall k :: 0 <= k < |front| ==>
          frontVisibility[k] == if k < i then ToggleVisible(front[k]) else front[k]
        invariant tempCurrentView != "front" ==> forall k :: 0 <= k < |rear| ==>
          rearVisibility[k] == if k < i then ToggleVisible(rear[k]) else rear[k]
      {
        if tempCurrentView == "front" {
          frontVisibility := frontVisibility[i := ToggleVisible(frontVisibility[i])];
        } else {
          rearVisibility := rearVisibility[i := ToggleVisible(rearVisibility[i])];
        }
      }
      if tempCurrentView == "front" {
        assert frontVisibility == ToggleAll(front);
      } else {
        assert rearVisibility == ToggleAll(rear);
      }
    }

    /** drawTempRearRacks: the rear racks are drawn; their divs keep their visibility. */
    method DrawTempRearRacks()
      modifies this
      ensures theTempRacks == old(theTempRacks) && statusRequests == old(statusRequests)
      ensures tempMaxNumberRackUnits == old(tempMaxNumberRackUnits)
      ensures Views() == old(Views()).(drewRear := true, rearDraws := old(rearDraws) + 1)
    {
      rearDraws := rearDraws + 1;
      tempDrewRear := true;
    }

    /** nodeStatusRequest: one more request for the nodes' statuses. */
    method NodeStatusRequest()
      modifies this
      ensures statusRequests == old(statusRequests) + 1
      ensures Views() == old(Views()) && theTempRacks == old(theTempRacks)
      ensures tempMaxNumberRackUnits == old(tempMaxNumberRackUnits)
    {
      statusRequests := statusRequests + 1;
    }

    /**
     * toggleTempViews: hide the racks shown, then show the other side; the
     * first switch to the rear draws it and asks for the nodes' statuses.
     */
    method ToggleTempViews()
      requires Valid()
      modifies this
      ensures Valid() && theTempRacks == old(theTempRacks) && tempMaxNumberRackUnits == old(tempMaxNumberRackUnits)
      ensures Views() == ToggleViewsStep(old(Views()))
      ensures statusRequests == old(statusRequests) + if old(tempCurrentView) == "front" && !old(tempDrewRear) then 1 else 0
    {
      ToggleTempRacks();
      if tempCurrentView == "front" {
        if !tempDrewRear {
          tempCurrentView := "rear";
          DrawTempRearRacks();
          NodeStatusRequest();
        } else {
          tempCurrentView := "rear";
          ToggleTempRacks();
        }
      } else {
        tempCurrentView := "front";
        ToggleTempRacks();
      }
    }
  }
}
