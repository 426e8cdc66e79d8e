// The allocation and selection logic of HenManager (lib/henmanager.py): the
// next free node, infrastructure and file-node ids, the next free IP
// address, the expansion of a node range, and the checks, target selection
// and result aggregation of powerSilent. The testbed description, the
// configuration file and the power hardware are inputs.

module HenManager {
  import opened Common
  import HF = HenFunctions

  // ---------------------------------------------------------------------
  // __getNextNodeID, __getNextInfrastructureID, __getNextFileNodeID

  /** Where the number of an id is read: __getNextNodeID takes the trailing digits, the other two the text after the type name. */
  datatype Numbering = TrailingDigits | AfterType

  /** What the loop makes of one id: not counted, its number, or the exception int() or the regex match raises. */
  datatype Counted = Skip | Num(n: int) | Fail

  /** The start of the trailing run of digits (re "\d+$"). */
  function TrailingStart(s: string): (r: nat)
    ensures r <= |s| && AllDigits(s[r..]) && (r == 0 || !IsDigit(s[r - 1]))
    decreases |s|
  {
    if |s| > 0 && IsDigit(s[|s| - 1]) then
      var r := TrailingStart(s[..|s| - 1]);
      assert s[r..] == s[..|s| - 1][r..] + [s[|s| - 1]];
      r
    else |s|
  }

  /** The number of one id. Only ids containing the type name count for __getNextNodeID. */
  function IdNumber(rule: Numbering, kind: string, id: string): Counted
  {
    match rule
    case TrailingDigits =>
      if !Contains(id, kind) then Skip
      else
        var t := TrailingStart(id);
        if t == |id| then Fail else Num(DigitsValue(id[t..]))
    case AfterType =>
      var suffix := if |kind| <= |id| then id[|kind|..] else "";
      match ParseInt(suffix)
      case None => Fail
      case Some(n) => Num(n)
  }

  /** One step of the loop: the highest number after counting c. */
  function Count(acc: Option<int>, c: Counted): Option<int>
  {
    match acc
    case None => None
    case Some(h) =>
      match c
      case Skip => Some(h)
      case Fail => None
      case Num(x) => Some(if x > h then x else h)
  }

  /** The highest number of the loop over the ids (starting from lo), or None once an id raises. */
  function HighestNumber(rule: Numbering, kind: string, ids: seq<string>, lo: int): Option<int>
    decreases |ids|
  {
    if |ids| == 0 then Some(lo)
    else Count(HighestNumber(rule, kind, ids[..|ids| - 1], lo), IdNumber(rule, kind, ids[|ids| - 1]))
  }

  /** One step raises when the loop already has or the id does, and otherwise keeps the larger number. */
  lemma CountStep(h: Option<int>, c: Counted)
    ensures Count(h, c).None? <==> h.None? || c.Fail?
    ensures Count(h, c).Some? ==>
      (h.value <= Count(h, c).value && (c.Num? ==> c.n <= Count(h, c).value) &&
       (Count(h, c).value == h.value || c == Num(Count(h, c).value)))
  {
  }

  /**
   * The loop raises exactly when some id raises; otherwise its result is
   * at least lo and every counted number, and is lo or a counted number.
   */
  lemma {:induction false} HighestNumberMeaning(rule: Numbering, kind: string, ids: seq<string>, lo: int)
    ensures var r := HighestNumber(rule, kind, ids, lo);
      r.None? <==> exists i :: 0 <= i < |ids| && IdNumber(rule, kind, ids[i]).Fail?
    ensures var r := HighestNumber(rule, kind, ids, lo);
      r.Some? ==> (lo <= r.value &&
        (forall i :: 0 <= i < |ids| && IdNumber(rule, kind, ids[i]).Num? ==> IdNumber(rule, kind, ids[i]).n <= r.value) &&
        (r.value == lo || exists i :: 0 <= i < |ids| && IdNumber(rule, kind, ids[i]) == Num(r.value)))
    decreases |ids|
  {
    if |ids| > 0 {
      var n := |ids| - 1;
      var front := ids[..n];
      assert forall i :: 0 <= i < n ==> ids[i] == front[i];
      HighestNumberMeaning(rule, kind, front, lo);
      var h := HighestNumber(rule, kind, front, lo);
      var c := IdNumber(rule, kind, ids[n]);
      assert HighestNumber(rule, kind, ids, lo) == Count(h, c);
      CountStep(h, c);
      var r := Count(h, c);
      if r.None? {
        if c.Fail? {
          assert IdNumber(rule, kind, ids[n]).Fail?;
        } else {
          var i :| 0 <= i < n && IdNumber(rule, kind, front[i]).Fail?;
          assert IdNumber(rule, kind, ids[i]).Fail?;
        }
      } else {
        forall i | 0 <= i < |ids|
          ensures !IdNumber(rule, kind, ids[i]).Fail?
          ensures IdNumber(rule, kind, ids[i]).Num? ==> IdNumber(rule, kind, ids[i]).n <= r.value
        {
          if i < n {
            assert ids[i] == front[i];
          }
        }
        if r.value != lo {
          if r == h {
            var i :| 0 <= i < n && IdNumber(rule, kind, front[i]) == Num(h.value);
            assert IdNumber(rule, kind, ids[i]) == Num(r.value);
          } else {
            assert IdNumber(rule, kind, ids[n]) == Num(r.value);
          }
        }
      }
    }
  }

  /**
   * The id the three functions return: the type name and the minimum when
   * nothing counted exceeds it and no element has that id, else the type
   * name and one more than the highest number. None is an exception: a
   * minimum or an id number int() cannot read, or a node id without
   * trailing digits. ids None is the None or -1 of a failed lookup.
   */
  function NextId(rule: Numbering, kind: string, ids: Option<seq<string>>, minimum: string, minPresent: bool): Option<string>
  {
    match ParseInt(minimum)
    case None => None
    case Some(lo) =>
      if ids.None? then Some(kind + minimum)
      else
        match HighestNumber(rule, kind, ids.value, lo)
        case None => None
        case Some(h) => if h == lo && !minPresent then Some(kind + minimum) else Some(kind + IntToString(h + 1))
  }

  /**
   * The new id is the minimum exactly when no counted number exceeds it and
   * nothing has that id; otherwise its number is one more than every
   * counted number and than the minimum.
   */
  lemma NextIdMeaning(rule: Numbering, kind: string, ids: seq<string>, minimum: string, lo: int, minPresent: bool)
    requires ParseInt(minimum) == Some(lo)
    requires forall i :: 0 <= i < |ids| ==> !IdNumber(rule, kind, ids[i]).Fail?
    ensures (forall i :: 0 <= i < |ids| && IdNumber(rule, kind, ids[i]).Num? ==> IdNumber(rule, kind, ids[i]).n <= lo) && !minPresent ==>
      NextId(rule, kind, Some(ids), minimum, minPresent) == Some(kind + minimum)
    ensures !((forall i :: 0 <= i < |ids| && IdNumber(rule, kind, ids[i]).Num? ==> IdNumber(rule, kind, ids[i]).n <= lo) && !minPresent) ==>
      exists n :: (NextId(rule, kind, Some(ids), minimum, minPresent) == Some(kind + IntToString(n)) && lo < n &&
        forall i :: 0 <= i < |ids| && IdNumber(rule, kind, ids[i]).Num? ==> IdNumber(rule, kind, ids[i]).n < n)
  {
    HighestNumberMeaning(rule, kind, ids, lo);
    var h := HighestNumber(rule, kind, ids, lo);
    if h.Some? && h.value != lo {
      var i :| 0 <= i < |ids| && IdNumber(rule, kind, ids[i]) == Num(h.value);
    }
    if !((forall i :: 0 <= i < |ids| && IdNumber(rule, kind, ids[i]).Num? ==> IdNumber(rule, kind, ids[i]).n <= lo) && !minPresent) {
      assert NextId(rule, kind, Some(ids), minimum, minPresent) == Some(kind + IntToString(h.value + 1));
    }
  }

  /** The loop of the three functions over the ids of the elements of the type (operational ones for nodes). */
  method GetNextId(rule: Numbering, kind: string, ids: Option<seq<string>>, minimum: string, minPresent: bool)
    returns (r: Option<string>)
    ensures r == NextId(rule, kind, ids, minimum, minPresent)
  {
    var lo := ParseInt(minimum);
    if lo.None? {
      return None;
    }
    if ids.None? {
      return Some(kind + minimum);
    }
    var list := ids.value;
    var highest := lo.value;
    for i := 0 to |list|
      invariant HighestNumber(rule, kind, list[..i], lo.value) == Some(highest)
    {
      HighestStep(rule, kind, list, lo.value, i);
      var c := IdNumber(rule, kind, list[i]);
      if c.Fail? {
        HighestNumberMeaning(rule, kind, list, lo.value);
        return None;
      }
      if c.Num? && c.n > highest {
        highest := c.n;
      }
    }
    assert list[..|list|] == list;
    if highest == lo.value && !minPresent {
      return Some(kind + minimum);
    }
    return Some(kind + IntToString(highest + 1));
  }

  lemma HighestStep(rule: Numbering, kind: string, ids: seq<string>, lo: int, i: nat)
    requires i < |ids|
    ensures HighestNumber(rule, kind, ids[..i + 1], lo) == Count(HighestNumber(rule, kind, ids[..i], lo), IdNumber(rule, kind, ids[i]))
  {
    assert ids[..i + 1][..i] == ids[..i];
  }

  // ---------------------------------------------------------------------
  // __getNextIPAddress

  /**
   * One step of the loop over the addresses of all interfaces: the highest
   * address containing the base so far and whether one equal to the highest
   * at that moment was met; None once a comparison raises.
   */
  function ScanStep(acc: Option<(string, bool)>, ip: string, base: string): Option<(string, bool)>
  {
    match acc
    case None => None
    case Some(a) =>
      if !Contains(ip, base) then acc
      else
        match HF.IsHigherIP(ip, a.0)
        case None => None
        case Some(higher) => if higher then Some((ip, a.1)) else Some((a.0, a.1 || ip == a.0))
  }

  /** The loop over the addresses, starting from base.minimum. */
  function IPScan(ips: seq<string>, base: string, start: string): Option<(string, bool)>
    decreases |ips|
  {
    if |ips| == 0 then Some((start, false))
    else ScanStep(IPScan(ips[..|ips| - 1], base, start), ips[|ips| - 1], base)
  }

  /** The highest address is base.minimum or an address containing the base. */
  lemma {:induction false} IPScanMeaning(ips: seq<string>, base: string, start: string)
    ensures var r := IPScan(ips, base, start);
      r.Some? ==> (r.value.0 == start || exists i :: 0 <= i < |ips| && Contains(ips[i], base) && ips[i] == r.value.0)
    decreases |ips|
  {
    if |ips| > 0 {
      var n := |ips| - 1;
      assert forall i :: 0 <= i < n ==> ips[i] == ips[..n][i];
      IPScanMeaning(ips[..n], base, start);
    }
  }

  /** __getNextIPAddress; ips None is the None or -1 of a failed lookup. */
  function NextIPAddress(ips: Option<seq<string>>, base: string, minimum: string): Option<string>
  {
    var start := base + "." + minimum;
    if ips.None? then Some(start)
    else
      match IPScan(ips.value, base, start)
      case None => None
      case Some(acc) =>
        if acc.1 then HF.IncrementIPAddress(acc.0)
        else if acc.0 == start then Some(start)
        else HF.IncrementIPAddress(acc.0)
  }

  /**
   * When every address containing the base is below base.minimum and none
   * equals it, base.minimum comes back; any other address returned is the
   * increment of base.minimum or of an address containing the base.
   */
  lemma NextIPAddressMeaning(ips: seq<string>, base: string, minimum: string)
    ensures (forall i :: 0 <= i < |ips| && Contains(ips[i], base) ==>
        HF.IsHigherIP(ips[i], base + "." + minimum) == Some(false) && ips[i] != base + "." + minimum) ==>
      NextIPAddress(Some(ips), base, minimum) == Some(base + "." + minimum)
    ensures var r := NextIPAddress(Some(ips), base, minimum);
      r.Some? && r.value != base + "." + minimum ==>
        exists h :: (h == base + "." + minimum || exists i :: 0 <= i < |ips| && Contains(ips[i], base) && ips[i] == h) &&
          HF.IncrementIPAddress(h) == r
  {
    var start := base + "." + minimum;
    IPScanMeaning(ips, base, start);
    if forall i :: 0 <= i < |ips| && Contains(ips[i], base) ==> HF.IsHigherIP(ips[i], start) == Some(false) && ips[i] != start {
      ScanBelowStart(ips, base, start);
    }
  }

  lemma {:induction false} ScanBelowStart(ips: seq<string>, base: string, start: string)
    requires forall i :: 0 <= i < |ips| && Contains(ips[i], base) ==> HF.IsHigherIP(ips[i], start) == Some(false) && ips[i] != start
    ensures IPScan(ips, base, start) == Some((start, false))
    decreases |ips|
  {
    if |ips| > 0 {
      var n := |ips| - 1;
      assert forall i :: 0 <= i < n ==> ips[i] == ips[..n][i];
      ScanBelowStart(ips[..n], base, start);
    }
  }

  /** The loops of __getNextIPAddress over the interface addresses, flattened in visiting order. */
  method GetNextIPAddress(ips: Option<seq<string>>, base: string, minimum: string) returns (r: Option<string>)
    ensures r == NextIPAddress(ips, base, minimum)
  {
    var start := base + "." + minimum;
    if ips.None? {
      return Some(start);
    }
    var list := ips.value;
    var highest := start;
    var increment := false;
    for i := 0 to |list|
      invariant IPScan(list[..i], base, start) == Some((highest, increment))
    {
      ScanPrefixStep(list, base, start, i);
      var ip := list[i];
      if Contains(ip, base) {
        var higher := HF.IsHigherIP(ip, highest);
        if higher.None? {
          FailedScanStays(list, base, start, i + 1);
          return None;
        }
        if higher.value {
          highest := ip;
        } else if ip == highest {
          increment := true;
        }
      }
    }
    assert list[..|list|] == list;
    if increment {
      return HF.IncrementIPAddress(highest);
    }
    if highest == start {
      return Some(start);
    }
    return HF.IncrementIPAddress(highest);
  }

  lemma ScanPrefixStep(ips: seq<string>, base: string, start: string, i: nat)
    requires i < |ips|
    ensures IPScan(ips[..i + 1], base, start) == ScanStep(IPScan(ips[..i], base, start), ips[i], base)
  {
    assert ips[..i + 1][..i] == ips[..i];
  }

  /** Once a comparison raises, the scan of every longer prefix raises. */
  lemma {:induction false} FailedScanStays(ips: seq<string>, base: string, start: string, k: nat)
    requires k <= |ips| && IPScan(ips[..k], base, start).None?
    ensures IPScan(ips, base, start).None?
    decreases |ips| - k
  {
    if k < |ips| {
      assert ips[..k + 1][..k] == ips[..k];
      FailedScanStays(ips, base, start, k + 1);
    } else {
      assert ips[..k] == ips;
    }
  }

  // ---------------------------------------------------------------------
  // getNodeRange

  /**
   * The groups the subrange regex matched: a first number, a '-', a second
   * number, a ':' and a step.
   */
  datatype Subrange = Subrange(first: Option<nat>, dash: bool, last: Option<nat>, colon: bool, step: Option<nat>)

  /** What a subrange asks for: stop and return what was found so far, raise, or the range(i, j + 1, k) to look up. */
  datatype RangeSpec = Stop | Raise | Range(i: int, j: int, k: int)

  function StepOf(s: Subrange): int
  {
    if s.step.Some? then s.step.value else 1
  }

  /** The case analysis of getNodeRange; a zero step raises in range() or in the modulo. */
  function SpecOf(s: Subrange, minNum: int, maxNum: int): (r: RangeSpec)
    ensures r.Range? ==> r.k > 0
  {
    if s.colon && s.step.None? then Stop
    else if s.first.Some? && s.dash && s.last.Some? then
      (if StepOf(s) == 0 then Raise else Range(s.first.value, s.last.value, StepOf(s)))
    else if s.dash && s.last.Some? then
      (if StepOf(s) == 0 then Raise
       else if s.step.Some? then Range(s.last.value % StepOf(s), s.last.value, StepOf(s))
       else Range(minNum, s.last.value, 1))
    else if s.first.Some? && s.dash then
      (if StepOf(s) == 0 then Raise else Range(s.first.value, maxNum, StepOf(s)))
    else if s.dash then
      (if StepOf(s) == 0 then Raise else Range(minNum, maxNum, StepOf(s)))
    else if s.first.Some? && s.step.None? then Range(s.first.value, s.first.value, 1)
    else Stop
  }

  /** The numbers range(i, j + 1, k) produces, for k > 0. */
  function RangeSeq(i: int, j: int, k: int): seq<int>
    requires k > 0
    decreases j - i + k
  {
    if i > j then [] else [i] + RangeSeq(i + k, j, k)
  }

  /** The numbers from i to j that are i plus a multiple of k. */
  predicate InRange(n: int, i: int, j: int, k: int)
    requires k > 0
  {
    i <= n <= j && (n - i) % k == 0
  }

  /** range(i, j + 1, k) holds exactly the numbers InRange describes. */
  lemma {:induction false} RangeSeqMeaning(m: int, i: int, j: int, k: int)
    requires k > 0
    ensures m in RangeSeq(i, j, k) <==> InRange(m, i, j, k)
    decreases j - i + k
  {
    if i <= j {
      RangeSeqMeaning(m, i + k, j, k);
      if m != i && i <= m {
        StepMod(m - i, k);
      }
    }
  }

  /** A positive multiple of k is at least k, and subtracting k keeps the remainder. */
  lemma StepMod(x: int, k: int)
    requires k > 0 && 0 < x
    ensures x % k == 0 ==> k <= x
    ensures (x - k) % k == x % k
  {
    var q1, r1 := x / k, x % k;
    var q2, r2 := (x - k) / k, (x - k) % k;
    assert q1 * k + r1 == (q2 + 1) * k + r2;
    DivModUnique(k, q1, r1, q2 + 1, r2);
    if r1 == 0 && x < k {
      DivModUnique(k, q1, r1, 0, x);
    }
  }

  /** Euclidean quotient and remainder are unique. */
  lemma DivModUnique(k: int, q1: int, r1: int, q2: int, r2: int)
    requires k > 0 && 0 <= r1 < k && 0 <= r2 < k && q1 * k + r1 == q2 * k + r2
    ensures q1 == q2 && r1 == r2
  {
    var d := q1 - q2;
    assert d * k == r2 - r1;
    MulSign(d, k);
  }

  lemma MulSign(d: int, k: int)
    requires k > 0
    ensures d >= 1 ==> d * k >= k
    ensures d <= -1 ==> d * k <= -k
  {
    if d >= 1 {
      assert d * k == (d - 1) * k + k;
    } else if d <= -1 {
      assert d * k == (d + 1) * k - k;
    }
  }

  /** The existing ids of the numbers of range(i, j + 1, k), the ids the loop over it adds. */
  function Picked<T>(kind: string, nodes: map<string, T>, i: int, j: int, k: int): set<string>
    requires k > 0
    decreases j - i + k
  {
    if i > j then {}
    else (if kind + IntToString(i) in nodes then {kind + IntToString(i)} else {}) + Picked(kind, nodes, i + k, j, k)
  }

  /** An id is picked exactly when it exists and is the type name and a number of the range. */
  lemma {:induction false} PickedMeaning<T>(kind: string, nodes: map<string, T>, i: int, j: int, k: int, id: string)
    requires k > 0
    ensures id in Picked(kind, nodes, i, j, k) <==> id in nodes && exists m :: m in RangeSeq(i, j, k) && id == kind + IntToString(m)
    decreases j - i + k
  {
    if i <= j {
      PickedMeaning(kind, nodes, i + k, j, k, id);
      assert RangeSeq(i, j, k) == [i] + RangeSeq(i + k, j, k);
      if id in nodes && exists m :: m in RangeSeq(i, j, k) && id == kind + IntToString(m) {
        var m :| m in RangeSeq(i, j, k) && id == kind + IntToString(m);
        if m != i {
          assert m in RangeSeq(i + k, j, k);
        }
      }
    }
  }

  /** The ids the subranges select, up to the first that stops; None when one raises first. */
  ghost function Selected<T>(kind: string, subs: seq<Subrange>, minNum: int, maxNum: int, nodes: map<string, T>): Option<set<string>>
    decreases |subs|
  {
    if |subs| == 0 then Some({})
    else
      match SpecOf(subs[0], minNum, maxNum)
      case Stop => Some({})
      case Raise => None
      case Range(i, j, k) => Joined(Picked(kind, nodes, i, j, k), Selected(kind, subs[1..], minNum, maxNum, nodes))
  }

  /** What was found so far joined with the selection of the other subranges. */
  function Joined(found: set<string>, rest: Option<set<string>>): Option<set<string>>
  {
    if rest.None? then None else Some(found + rest.value)
  }

  /** Joining with nothing changes nothing, and joins associate. */
  lemma JoinedUnits(a: set<string>, b: set<string>, rest: Option<set<string>>)
    ensures Joined({}, rest) == rest
    ensures Joined(a + b, rest) == Joined(a, Joined(b, rest))
  {
    if rest.Some? {
      assert {} + rest.value == rest.value;
      assert a + b + rest.value == a + (b + rest.value);
    }
  }

  /** A plain range a-b, step 1, picks exactly the existing ids of the type numbered a to b. */
  lemma PlainRangePicks<T>(kind: string, nodes: map<string, T>, a: nat, b: nat, minNum: int, maxNum: int)
    ensures SpecOf(Subrange(Some(a), true, Some(b), false, None), minNum, maxNum) == Range(a, b, 1)
    ensures forall id :: id in Picked(kind, nodes, a, b, 1) <==>
      id in nodes && exists n :: a <= n <= b && id == kind + IntToString(n)
  {
    forall n
      ensures n in RangeSeq(a, b, 1) <==> a <= n <= b
    {
      RangeSeqMeaning(n, a, b, 1);
    }
    forall id
      ensures id in Picked(kind, nodes, a, b, 1) <==> id in nodes && exists m :: m in RangeSeq(a, b, 1) && id == kind + IntToString(m)
    {
      PickedMeaning(kind, nodes, a, b, 1, id);
    }
  }

  /** A ':' without a step, and a number with a step but no '-', stop the expansion. */
  lemma StopCases(s: Subrange, minNum: int, maxNum: int)
    ensures s.colon && s.step.None? ==> SpecOf(s, minNum, maxNum) == Stop
    ensures s.first.Some? && !s.dash && s.step.Some? ==> SpecOf(s, minNum, maxNum) == Stop
  {
  }

  /** The loop over range(i, j + 1, k): the existing ids of the type among its numbers are added. */
  method AddRange<T>(kind: string, nodes: map<string, T>, i: int, j: int, k: int, acc: map<string, T>)
    returns (r: map<string, T>)
    requires k > 0
    requires forall id :: id in acc ==> id in nodes && acc[id] == nodes[id]
    ensures r.Keys == acc.Keys + Picked(kind, nodes, i, j, k)
    ensures forall id :: id in r ==> id in nodes && r[id] == nodes[id]
  {
    r := acc;
    var n := i;
    while n <= j
      invariant r.Keys + Picked(kind, nodes, n, j, k) == acc.Keys + Picked(kind, nodes, i, j, k)
      invariant forall id :: id in r ==> id in nodes && r[id] == nodes[id]
      decreases j - n + k
    {
      var id := kind + IntToString(n);
      if id in nodes {
        r := r[id := nodes[id]];
      }
      n := n + k;
    }
  }

  /**
   * getNodeRange from the type name and the matched subranges on: the
   * nodes whose ids the subranges select, up to the first subrange that
   * stops the expansion; None is an exception raised by a zero step.
   */
  method GetNodeRange<T>(kind: string, subs: seq<Subrange>, minNum: int, maxNum: int, nodes: map<string, T>)
    returns (r: Option<map<string, T>>)
    ensures Selected(kind, subs, minNum, maxNum, nodes).None? ==> r.None?
    ensures Selected(kind, subs, minNum, maxNum, nodes).Some? ==>
      r.Some? && r.value.Keys == Selected(kind, subs, minNum, maxNum, nodes).value &&
      forall id :: id in r.value ==> id in nodes && r.value[id] == nodes[id]
  {
    var acc: map<string, T> := map[];
    var idx := 0;
    assert subs[0..] == subs;
    assert acc.Keys == {};
    JoinedUnits(acc.Keys, {}, Selected(kind, subs, minNum, maxNum, nodes));
    while idx < |subs|
      invariant 0 <= idx <= |subs|
      invariant forall id :: id in acc ==> id in nodes && acc[id] == nodes[id]
      invariant Selected(kind, subs, minNum, maxNum, nodes) == Joined(acc.Keys, Selected(kind, subs[idx..], minNum, maxNum, nodes))
    {
      assert subs[idx..][1..] == subs[idx + 1..] && subs[idx..][0] == subs[idx];
      var spec := SpecOf(subs[idx], minNum, maxNum);
      if spec.Stop? {
        return Some(acc);
      }
      if spec.Raise? {
        return None;
      }
      var acc' := AddRange(kind, nodes, spec.i, spec.j, spec.k, acc);
      JoinedUnits(acc.Keys, Picked(kind, nodes, spec.i, spec.j, spec.k), Selected(kind, subs[idx + 1..], minNum, maxNum, nodes));
      acc := acc';
      idx := idx + 1;
    }
    r := Some(acc);
  }

  // ---------------------------------------------------------------------
  // powerSilent and __powerAction

  const VALID_ACTIONS: seq<string> := ["poweron", "poweroff", "restart", "status", "info",
                                       "softpoweron", "softpoweroff", "softrestart"]
  const SOFT_ACTIONS: seq<string> := ["softpoweron", "softpoweroff", "softrestart"]

  /** The call __powerAction makes on the power node. */
  datatype PowerOp = PowerOn | PowerOff | Restart | Status | Info | UnknownAction

  /** __powerAction: a soft action makes the same call as the hard one. */
  function PowerAction(action: string): PowerOp
  {
    if action == "poweron" || action == "softpoweron" then PowerOn
    else if action == "poweroff" || action == "softpoweroff" then PowerOff
    else if action == "restart" || action == "softrestart" then Restart
    else if action == "status" then Status
    else if action == "info" then Info
    else UnknownAction
  }

  /** Exactly the actions powerSilent lets through make a call. */
  lemma PowerActionMeaning(action: string)
    ensures action in VALID_ACTIONS <==> PowerAction(action) != UnknownAction
    ensures action in SOFT_ACTIONS ==> PowerAction(action) == PowerAction(action[4..])
  {
    if action in SOFT_ACTIONS {
      assert action == "softpoweron" || action == "softpoweroff" || action == "softrestart";
      assert "softpoweron"[4..] == "poweron" && "softpoweroff"[4..] == "poweroff" && "softrestart"[4..] == "restart";
    }
  }

  /** What powerSilent learns about the node: its (power node, port) pairs and its service processor ("" for none). */
  datatype PowerInfo = PowerInfo(powerNodes: seq<(string, string)>, spNode: string)

  /** The power targets: the listed power nodes that exist for a hard action, the service processor on port 1 for a soft one. */
  function Targets(action: string, info: PowerInfo, powerNodes: set<string>): (r: seq<(string, string)>)
    decreases |info.powerNodes|
  {
    if action in SOFT_ACTIONS then
      (if info.spNode != "" && info.spNode in powerNodes then [(info.spNode, "1")] else [])
    else if |info.powerNodes| == 0 then []
    else
      var p := info.powerNodes[0];
      var rest := Targets(action, info.(powerNodes := info.powerNodes[1..]), powerNodes);
      if p.0 != "" && p.0 in powerNodes then [p] + rest else rest
  }

  /** For a hard action the targets are the listed pairs whose power node exists, in order. */
  lemma {:induction false} TargetsMeaning(action: string, info: PowerInfo, powerNodes: set<string>)
    requires action !in SOFT_ACTIONS
    ensures forall t :: t in Targets(action, info, powerNodes) <==> t in info.powerNodes && t.0 != "" && t.0 in powerNodes
    decreases |info.powerNodes|
  {
    if |info.powerNodes| > 0 {
      TargetsMeaning(action, info.(powerNodes := info.powerNodes[1..]), powerNodes);
      assert info.powerNodes == [info.powerNodes[0]] + info.powerNodes[1..];
    }
  }

  /** Appending a message to a ", "-separated result, as the loop of powerSilent does it. */
  function AddMessage(acc: string, msg: string): string
  {
    if acc != "" then acc + ", " + msg else msg
  }

  /** The messages of the results whose code is -1 (failed), or of the others, folded with AddMessage. */
  function Messages(results: seq<(int, string)>, failed: bool): string
    decreases |results|
  {
    if |results| == 0 then ""
    else
      var n := |results| - 1;
      var acc := Messages(results[..n], failed);
      if (results[n].0 == -1) == failed then AddMessage(acc, results[n].1) else acc
  }

  /** The failed or the other messages, in order. */
  function Picks(results: seq<(int, string)>, failed: bool): (r: seq<string>)
    ensures forall m :: m in r ==> exists i :: 0 <= i < |results| && results[i].1 == m && (results[i].0 == -1) == failed
    decreases |results|
  {
    if |results| == 0 then []
    else
      var n := |results| - 1;
      assert forall i :: 0 <= i < n ==> results[..n][i] == results[i];
      if (results[n].0 == -1) == failed then Picks(results[..n], failed) + [results[n].1] else Picks(results[..n], failed)
  }

  /** With non-empty messages the fold is the ", "-join of the picked messages. */
  lemma {:induction false} MessagesJoin(results: seq<(int, string)>, failed: bool)
    requires forall i :: 0 <= i < |results| ==> results[i].1 != ""
    ensures Messages(results, failed) == JoinWith(Picks(results, failed), ", ")
    ensures Messages(results, failed) == "" <==> Picks(results, failed) == []
    decreases |results|
  {
    if |results| > 0 {
      var n := |results| - 1;
      MessagesJoin(results[..n], failed);
      if (results[n].0 == -1) == failed && Picks(results[..n], failed) != [] {
        JoinWithSnoc(Picks(results[..n], failed), results[n].1, ", ");
      }
    }
  }

  /** The reply from the target results: the failures if any failure message was added, else the successes. */
  function Aggregate(results: seq<(int, string)>): (int, string)
  {
    var incorrect := Messages(results, true);
    if incorrect != "" then (-1, incorrect) else (0, Messages(results, false))
  }

  /**
   * With non-empty messages: -1 with the failures joined by ", " exactly
   * when some target failed, else 0 with the successes joined.
   */
  lemma AggregateMeaning(results: seq<(int, string)>)
    requires forall i :: 0 <= i < |results| ==> results[i].1 != ""
    ensures (exists i :: 0 <= i < |results| && results[i].0 == -1) ==>
      Aggregate(results) == (-1, JoinWith(Picks(results, true), ", "))
    ensures (forall i :: 0 <= i < |results| ==> results[i].0 != -1) ==>
      Aggregate(results) == (0, JoinWith(Picks(results, false), ", "))
  {
    MessagesJoin(results, true);
    MessagesJoin(results, false);
    if exists i :: 0 <= i < |results| && results[i].0 == -1 {
      var i :| 0 <= i < |results| && results[i].0 == -1;
      PicksHasFailure(results, i);
    } else {
      NoFailurePicks(results);
    }
  }

  lemma {:induction false} PicksHasFailure(results: seq<(int, string)>, i: int)
    requires 0 <= i < |results| && results[i].0 == -1
    ensures Picks(results, true) != []
    decreases |results|
  {
    var n := |results| - 1;
    if i < n {
      assert results[..n][i] == results[i];
      PicksHasFailure(results[..n], i);
    }
  }

  lemma {:induction false} NoFailurePicks(results: seq<(int, string)>)
    requires forall i :: 0 <= i < |results| ==> results[i].0 != -1
    ensures Picks(results, true) == []
    decreases |results|
  {
    if |results| > 0 {
      var n := |results| - 1;
      assert forall i :: 0 <= i < n ==> results[..n][i] == results[i];
      NoFailurePicks(results[..n]);
    }
  }

  /** The two loops of powerSilent building the failure and success strings. */
  method BuildReply(results: seq<(int, string)>) returns (code: int, msg: string)
    ensures (code, msg) == Aggregate(results)
  {
    var correct := "";
    var incorrect := "";
    for i := 0 to |results|
      invariant incorrect == Messages(results[..i], true) && correct == Messages(results[..i], false)
    {
      assert results[..i + 1][..i] == results[..i];
      if results[i].0 == -1 {
        if incorrect != "" {
          incorrect := incorrect + ", ";
        }
        incorrect := incorrect + results[i].1;
      } else {
        if correct != "" {
          correct := correct + ", ";
        }
        correct := correct + results[i].1;
      }
    }
    assert results[..|results|] == results;
    if incorrect != "" {
      return -1, incorrect;
    }
    return 0, correct;
  }

  /** The (code, message) powerSilent returns before it looks at any node, if it stops there. */
  function PowerPrecheck(nodeid: string, action: string): Option<(int, string)>
  {
    if action !in VALID_ACTIONS then Some((-1, "Unknown action \"" + action + "\" specified"))
    else if nodeid == "none" then Some((-1, "Nodeid not specified"))
    else None
  }

  /**
   * powerSilent. powerNodes are the ids of the power switches, switches
   * with power over ethernet and service processors; node is the node found
   * outside the power switches, if any; act gives the (code, message) of
   * __powerAction on a power node and port, exceptions included.
   */
  method PowerSilent(nodeid: string, action: string, port: Option<string>, powerNodes: set<string>,
                     node: Option<PowerInfo>, act: (string, string) -> (int, string))
    returns (code: int, msg: string)
    ensures PowerPrecheck(nodeid, action).Some? ==> (code, msg) == PowerPrecheck(nodeid, action).value
    ensures PowerPrecheck(nodeid, action).None? && port.Some? && nodeid in powerNodes ==>
      (code, msg) == act(nodeid, port.value)
    ensures PowerPrecheck(nodeid, action).None? && !(port.Some? && nodeid in powerNodes) ==>
      (node.None? ==> (code, msg) == (-1, "Unknown node " + nodeid)) &&
      (node.Some? && Targets(action, node.value, powerNodes) == [] ==>
        (code, msg) == (-1, "Could not find power switch for node " + nodeid)) &&
      (node.Some? && Targets(action, node.value, powerNodes) != [] ==>
        var ts := Targets(action, node.value, powerNodes);
        (code, msg) == Aggregate(seq(|ts|, i requires 0 <= i < |ts| => act(ts[i].0, ts[i].1))))
  {
    var pre := PowerPrecheck(nodeid, action);
    if pre.Some? {
      return pre.value.0, pre.value.1;
    }
    if port.Some? && nodeid in powerNodes {
      var res := act(nodeid, port.value);
      return res.0, res.1;
    }
    if node.None? {
      return -1, "Unknown node " + nodeid;
    }
    var targets := Targets(action, node.value, powerNodes);
    if |targets| == 0 {
      return -1, "Could not find power switch for node " + nodeid;
    }
    var results: seq<(int, string)> := [];
    for i := 0 to |targets|
      invariant |results| == i
      invariant forall k :: 0 <= k < i ==> results[k] == act(targets[k].0, targets[k].1)
    {
      results := results + [act(targets[i].0, targets[i].1)];
    }
    assert results == seq(|targets|, i requires 0 <= i < |targets| => act(targets[i].0, targets[i].1));
    code, msg := BuildReply(results);
  }

  // ---------------------------------------------------------------------
  // The second power definition

  /**
   * HenManager defines power twice; the later definition, which asks the
   * power daemon on behalf of a user, replaces the powerSilent wrapper. A
   * call with its positional arguments gets the request, any other number
   * of them the TypeError (None).
   */
  datatype PowerRequest = PowerRequest(username: string, action: string, args: string)

  function CallPower(args: seq<string>): (r: Option<PowerRequest>)
    ensures r.Some? <==> |args| == 3
  {
    if |args| == 3 then Some(PowerRequest(args[0], args[1], args[2])) else None
  }

  /** So a call like power(nodeID, "restart") raises instead of restarting the node. */
  lemma TwoArgumentPowerFails(nodeid: string)
    ensures CallPower([nodeid, "restart"]).None?
  {
  }
}
