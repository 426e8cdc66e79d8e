// The VLAN bookkeeping of the switch daemon (bin/daemons/switchdaemon2.py):
// the two maps between vlan names and vlan ids per switch, the search for an
// unused id, the creation of a vlan and the tag dispatch of adding a port,
// the search for a free id in a switch's range, the renaming of the default
// vlan and the check of a port mode request. Switch calls are inputs.

module SwitchDaemon {
  import opened Common

  /** The range __vlan_get_next_id searches. */
  const FIRST_VLAN_ID := 100
  const LAST_VLAN_ID := 4094

  /** The names the switch drivers give the default vlan. */
  predicate IsDefaultName(vlan: string)
  {
    vlan == "Default VLAN" || vlan == "DEFAULT_VLAN" || vlan == "Vlan 1" || vlan == "default"
  }

  /** __rewriteVlan: the default vlan under one name, "Default". */
  function RewriteVlan(vlan: string): string
  {
    if IsDefaultName(vlan) then "Default" else vlan
  }

  /** The four default names become "Default", other names stay, and rewriting twice changes nothing more. */
  lemma RewriteVlanMeaning(vlan: string)
    ensures IsDefaultName(vlan) ==> RewriteVlan(vlan) == "Default"
    ensures !IsDefaultName(vlan) ==> RewriteVlan(vlan) == vlan
    ensures RewriteVlan(RewriteVlan(vlan)) == RewriteVlan(vlan)
  {
    assert !IsDefaultName("Default") by {
      assert "Default"[..7] != "Default VLAN"[..7] || |"Default"| != |"Default VLAN"|;
    }
  }

  /** The modes vlanPortModeSet accepts. */
  predicate IsPortMode(mode: string)
  {
    mode == "general" || mode == "access" || mode == "trunk"
  }

  /** The checks of vlanPortModeSet before it calls the switch: a 400 reply, or the request to forward. */
  datatype ModeRequest = Rejected(code: int, reply: string) | Forward(mode: string, device: string, iface: string)

  function PortModeRequest(args: seq<string>): (r: ModeRequest)
    ensures r.Forward? ==> |args| == 3 && IsPortMode(r.mode) && r == Forward(args[0], args[1], args[2])
    ensures r.Rejected? ==> r.code == 400
  {
    if |args| != 3 then Rejected(400, "Incorrect number of arguments")
    else if !IsPortMode(args[0]) then Rejected(400, "Incorrect mode : " + args[0])
    else Forward(args[0], args[1], args[2])
  }

  /** Exactly three arguments with a known mode go on to the switch; any other mode gets 400. */
  lemma PortModeRequestMeaning(args: seq<string>)
    ensures PortModeRequest(args).Forward? <==> |args| == 3 && IsPortMode(args[0])
    ensures |args| == 3 && !IsPortMode(args[0]) ==>
      PortModeRequest(args) == Rejected(400, "Incorrect mode : " + args[0])
  {
  }

  // ---------------------------------------------------------------------
  // The name/id maps

  /** A two-level dictionary: outer key, switch, value. */
  type Map2 = map<string, map<string, string>>

  function Inner(m: Map2, k: string): map<string, string>
  {
    if k in m then m[k] else map[]
  }

  /** m[a][b] = c, creating m[a] first if need be. */
  function Put2(m: Map2, a: string, b: string, c: string): Map2
  {
    m[a := Inner(m, a)[b := c]]
  }

  /** One of the two stores of __allocate_id: create m[a] when missing, then set m[a][b] = c. */
  method Store(m: Map2, a: string, b: string, c: string) returns (r: Map2)
    ensures r == Put2(m, a, b, c)
  {
    r := m;
    if a !in r {
      r := r[a := map[]];
    }
    assert r[a] == Inner(m, a);
    r := r[a := r[a][b := c]];
  }

  /** After the store the entry is there, and every other entry, older ones included, stays. */
  lemma Put2Meaning(m: Map2, a: string, b: string, c: string)
    ensures a in Put2(m, a, b, c) && b in Put2(m, a, b, c)[a] && Put2(m, a, b, c)[a][b] == c
    ensures forall x :: x in m ==> x in Put2(m, a, b, c)
    ensures forall x, y :: x in m && y in m[x] && (x, y) != (a, b) ==>
      y in Put2(m, a, b, c)[x] && Put2(m, a, b, c)[x][y] == m[x][y]
    ensures forall x, y :: x in Put2(m, a, b, c) && y in Put2(m, a, b, c)[x] ==>
      (x, y) == (a, b) || (x in m && y in m[x])
  {
  }

  /** The least id from i on, up to 4094, whose string is not a key of the id map. */
  function NextIdFrom(ids: Map2, i: int): (r: Option<int>)
    requires FIRST_VLAN_ID <= i
    decreases LAST_VLAN_ID + 1 - i
  {
    if i > LAST_VLAN_ID then None
    else if IntToString(i) !in ids then Some(i)
    else NextIdFrom(ids, i + 1)
  }

  lemma {:induction false} NextIdFromMeaning(ids: Map2, i: int)
    requires FIRST_VLAN_ID <= i
    ensures NextIdFrom(ids, i).None? <==> forall j :: i <= j <= LAST_VLAN_ID ==> IntToString(j) in ids
    ensures NextIdFrom(ids, i).Some? ==>
      var r := NextIdFrom(ids, i).value;
      i <= r <= LAST_VLAN_ID && IntToString(r) !in ids && forall j :: i <= j < r ==> IntToString(j) in ids
    decreases LAST_VLAN_ID + 1 - i
  {
    if i <= LAST_VLAN_ID && IntToString(i) in ids {
      NextIdFromMeaning(ids, i + 1);
    }
  }

  /** The id __vlan_get_next_id finds: the least unused one in 100..4094. */
  function NextId(ids: Map2): Option<int>
  {
    NextIdFrom(ids, FIRST_VLAN_ID)
  }

  /** What __vlan_create hands back: the switch's reply, or the exception when no id is left. */
  datatype Created = OutOfVlanIds | Created(ret: int)

  /** The port call __vlan_add_port makes on the switch. */
  datatype PortCall = AddTagged | AddUntagged | NoPortCall

  /** The reply of __vlan_add_port, or the exception of __vlan_create it lets through. */
  datatype AddPortReply = Reply(text: string) | Raised

  // ---------------------------------------------------------------------
  // The free id in a range

  /** The ids of the vlans listed for the switches looked at that lie in lo..hi. */
  ghost function UsedIds(info: map<string, map<string, int>>, sw: Option<string>, lo: int, hi: int): set<int>
  {
    set s, n | s in info && (sw.None? || s == sw.value) && n in info[s] && lo <= info[s][n] <= hi :: info[s][n]
  }

  /** The scan of __getNextFreeVlanId over the sorted ids: the number after the first gap, else lo. */
  function FirstGap(s: seq<int>, last: int, lo: int): int
    decreases |s|
  {
    if |s| == 0 then lo
    else if last + 1 < s[0] then last + 1
    else FirstGap(s[1..], s[0], lo)
  }

  /**
   * On an ascending list: a result other than lo is not listed and follows
   * a listed id or lo; lo comes back exactly when the ids leave no gap
   * after lo.
   */
  lemma {:induction false} FirstGapMeaning(s: seq<int>, last: int, lo: int)
    requires SortedInts(s) && lo <= last
    requires forall k :: 0 <= k < |s| ==> last <= s[k]
    ensures var r := FirstGap(s, last, lo);
      r != lo ==> r !in s && (r - 1 in s || r - 1 == last) && last < r
    ensures FirstGap(s, last, lo) == lo <==> NoGap(s, last)
    decreases |s|
  {
    if |s| > 0 && last + 1 >= s[0] {
      FirstGapMeaning(s[1..], s[0], lo);
      NoGapStep(s, last);
    } else if |s| > 0 {
      assert !NoGap(s, last);
    }
  }

  /** Past a first id that leaves no gap, the rest leave none after it exactly when the whole list leaves none. */
  lemma NoGapStep(s: seq<int>, last: int)
    requires |s| > 0 && s[0] <= last + 1
    ensures NoGap(s, last) <==> NoGap(s[1..], s[0])
  {
    var t := s[1..];
    if NoGap(t, s[0]) {
      forall k | 0 < k < |s|
        ensures s[k] <= s[k - 1] + 1
      {
        if k > 1 {
          assert t[k - 1] <= t[k - 2] + 1;
        }
      }
    }
  }

  /** The first listed id is at most one above last, and each other at most one above the one before it. */
  predicate NoGap(s: seq<int>, last: int)
  {
    |s| == 0 || (s[0] <= last + 1 && forall k :: 0 < k < |s| ==> s[k] <= s[k - 1] + 1)
  }

  /**
   * The id __getNextFreeVlanId picks from the ids at or above lo: one other
   * than lo is unused and one above a used id or lo; lo comes back exactly
   * when the sorted ids leave no gap after lo.
   */
  lemma FreeIdMeaning(ids: seq<int>, lo: int)
    requires forall k :: 0 <= k < |ids| ==> lo <= ids[k]
    ensures var r := FirstGap(SortInts(ids), lo, lo);
      r != lo ==> r !in ids && (r - 1 in ids || r - 1 == lo) && lo < r
    ensures FirstGap(SortInts(ids), lo, lo) == lo <==> NoGap(SortInts(ids), lo)
  {
    SortIntsMeaning(ids);
    GapOfPermutation(SortInts(ids), ids, lo);
  }

  /** FirstGapMeaning for an ascending permutation of ids at or above lo. */
  lemma GapOfPermutation(sorted: seq<int>, ids: seq<int>, lo: int)
    requires SortedInts(sorted) && multiset(sorted) == multiset(ids)
    requires forall k :: 0 <= k < |ids| ==> lo <= ids[k]
    ensures var r := FirstGap(sorted, lo, lo);
      r != lo ==> r !in ids && (r - 1 in ids || r - 1 == lo) && lo < r
    ensures FirstGap(sorted, lo, lo) == lo <==> NoGap(sorted, lo)
  {
    forall v
      ensures v in sorted <==> v in ids
    {
      assert v in sorted <==> v in multiset(sorted);
      assert v in ids <==> v in multiset(ids);
    }
    forall k | 0 <= k < |sorted|
      ensures lo <= sorted[k]
    {
      assert sorted[k] in ids;
    }
    FirstGapMeaning(sorted, lo, lo);
  }

  /** The switch daemon's vlan maps, the vlan tables read from the switches, and the id range. */
  class VlanAllocator {
    var nameSwitchId: Map2
    var idSwitchName: Map2
    var vlanInfo: map<string, map<string, int>>
    var minimumId: int
    var maximumId: int

    constructor (minimumId: int, maximumId: int)
      ensures nameSwitchId == map[] && idSwitchName == map[] && vlanInfo == map[]
      ensures this.minimumId == minimumId && this.maximumId == maximumId
    {
      nameSwitchId := map[];
      idSwitchName := map[];
      vlanInfo := map[];
      this.minimumId := minimumId;
      this.maximumId := maximumId;
    }

    /** __allocate_id: record the id of the vlan on the switch, and the vlan of the id. */
    method AllocateId(vlan: string, id: string, sw: string)
      modifies this
      ensures nameSwitchId == Put2(old(nameSwitchId), vlan, sw, id)
      ensures idSwitchName == Put2(old(idSwitchName), id, sw, vlan)
      ensures vlanInfo == old(vlanInfo) && minimumId == old(minimumId) && maximumId == old(maximumId)
    {
      nameSwitchId := Store(nameSwitchId, vlan, sw, id);
      idSwitchName := Store(idSwitchName, id, sw, vlan);
    }

    /** __vlan_get_next_id: the least id in 100..4094 not yet allocated, or -1. */
    method VlanGetNextId() returns (r: int)
      ensures r == match NextId(idSwitchName) case None => -1 case Some(i) => i
    {
      for i := FIRST_VLAN_ID to LAST_VLAN_ID + 1
        invariant NextIdFrom(idSwitchName, i) == NextId(idSwitchName)
      {
        if IntToString(i) !in idSwitchName {
          return i;
        }
      }
      return -1;
    }

    /**
     * __vlan_create: take the next id and ask the switch to create the vlan
     * (its reply is createResult); the id is recorded whatever the switch
     * replied.
     */
    method VlanCreate(vlan: string, sw: string, createResult: int) returns (r: Created)
      modifies this
      ensures NextId(old(idSwitchName)).None? ==> r == OutOfVlanIds && unchanged(this)
      ensures NextId(old(idSwitchName)).Some? ==>
        var id := IntToString(NextId(old(idSwitchName)).value);
        r == Created(createResult) &&
        nameSwitchId == Put2(old(nameSwitchId), vlan, sw, id) &&
        idSwitchName == Put2(old(idSwitchName), id, sw, vlan)
      ensures vlanInfo == old(vlanInfo) && minimumId == old(minimumId) && maximumId == old(maximumId)
    {
      var id := VlanGetNextId();
      NextIdFromMeaning(idSwitchName, FIRST_VLAN_ID);
      if id == -1 {
        return OutOfVlanIds;
      }
      AllocateId(vlan, IntToString(id), sw);
      r := Created(createResult);
    }

    /**
     * __vlan_add_port: create the vlan if the switch lacks it, then add the
     * port tagged or untagged (the switch's reply is portResult); any other
     * tag is refused before the switch is asked. The contract: an existing
     * vlan leaves the daemon's tables alone; for a missing one the call
     * raises when no vlan id is left, and a failed creation is reported and no port
     * is added; otherwise "tagged" and "untagged" add the port that way, the
     * reply being "success" exactly when the switch answers 0.
     */
    method VlanAddPort(vlan: string, user: string, tag: string, sw: string, vlanExists: bool,
                       createResult: int, portResult: int) returns (reply: AddPortReply, call: PortCall)
      modifies this
      ensures vlanExists ==> unchanged(this)
      ensures !vlanExists && NextId(old(idSwitchName)).None? ==> reply == Raised && call == NoPortCall
      ensures !vlanExists && NextId(old(idSwitchName)).Some? && createResult != 0 ==>
        reply == Reply("failure, creating vlan " + vlan + " for user " + user) && call == NoPortCall
      ensures (vlanExists || (NextId(old(idSwitchName)).Some? && createResult == 0)) ==>
        (tag == "tagged" ==> call == AddTagged) &&
        (tag == "untagged" ==> call == AddUntagged) &&
        (tag != "tagged" && tag != "untagged" ==>
          call == NoPortCall && reply == Reply("failure, incorrect tag type " + tag)) &&
        (call != NoPortCall ==> reply == Reply(if portResult == 0 then "success" else "failure"))
    {
      if !vlanExists {
        var created := VlanCreate(vlan, sw, createResult);
        if created.OutOfVlanIds? {
          return Raised, NoPortCall;
        }
        if created.ret != 0 {
          return Reply("failure, creating vlan " + vlan + " for user " + user), NoPortCall;
        }
      }
      if tag == "tagged" {
        call := AddTagged;
      } else if tag == "untagged" {
        call := AddUntagged;
      } else {
        return Reply("failure, incorrect tag type " + tag), NoPortCall;
      }
      reply := Reply(if portResult == 0 then "success" else "failure");
    }

    /**
     * __getNextFreeVlanId: the ids in minimumId..maximumId of one switch (or
     * of all), sorted, and the number after the first gap following
     * minimumId, else minimumId. None is the KeyError of an unknown switch.
     */
    method GetNextFreeVlanId(sw: Option<string>) returns (r: Option<int>)
      ensures sw.Some? && sw.value !in vlanInfo ==> r.None?
      ensures !(sw.Some? && sw.value !in vlanInfo) ==>
        exists ids: seq<int> :: (forall v :: v in ids <==> v in UsedIds(vlanInfo, sw, minimumId, maximumId)) &&
          r == Some(FirstGap(SortInts(ids), minimumId, minimumId))
    {
      if sw.Some? && sw.value !in vlanInfo {
        return None;
      }
      var ids: seq<int> := [];
      if sw.Some? {
        ids := CollectIds(vlanInfo[sw.value], minimumId, maximumId);
        assert forall v :: v in ids <==> v in UsedIds(vlanInfo, sw, minimumId, maximumId) by {
          forall v | v in UsedIds(vlanInfo, sw, minimumId, maximumId)
            ensures v in ids
          {
            var s, n :| s in vlanInfo && (sw.None? || s == sw.value) && n in vlanInfo[s] &&
              minimumId <= vlanInfo[s][n] <= maximumId && vlanInfo[s][n] == v;
          }
        }
      } else {
        var keys := vlanInfo.Keys;
        ghost var done: set<string> := {};
        while keys != {}
          invariant keys + done == vlanInfo.Keys && keys !! done
          invariant forall v :: v in ids <==> exists s, n :: (s in done && n in vlanInfo[s] &&
            minimumId <= vlanInfo[s][n] <= maximumId && vlanInfo[s][n] == v)
          decreases keys
        {
          var s :| s in keys;
          var more := CollectIds(vlanInfo[s], minimumId, maximumId);
          ids := ids + more;
          keys := keys - {s};
          done := done + {s};
        }
      }
      var sorted := SortInts(ids);
      var last := minimumId;
      for k := 0 to |sorted|
        invariant FirstGap(sorted[k..], last, minimumId) == FirstGap(sorted, minimumId, minimumId)
      {
        assert sorted[k..][1..] == sorted[k + 1..];
        if last + 1 < sorted[k] {
          return Some(last + 1);
        }
        last := sorted[k];
      }
      r := Some(minimumId);
    }
  }

  /** The loop over one switch's vlan table: the ids that lie in lo..hi. */
  method CollectIds(info: map<string, int>, lo: int, hi: int) returns (ids: seq<int>)
    ensures forall v :: v in ids <==> exists n :: n in info && lo <= info[n] <= hi && info[n] == v
  {
    ids := [];
    var keys := info.Keys;
    while keys != {}
      invariant keys <= info.Keys
      invariant forall v :: v in ids <==> exists n :: n in info && n !in keys && lo <= info[n] <= hi && info[n] == v
      decreases keys
    {
      var n :| n in keys;
      if lo <= info[n] <= hi {
        ids := ids + [info[n]];
      }
      keys := keys - {n};
    }
  }
}
